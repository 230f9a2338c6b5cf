/** Usage meters: one row per business, metric and monthly cycle, incremented by an upsert. */
module Metering {
  import opened Options
  import opened Calendar

  datatype UsageMeter = UsageMeter(business: string, metric: string, cycleStart: int, cycleEnd: int, usage: int)

  /** One call of MeteringService.increment_usage, for the specification. */
  datatype Increment = Increment(business: string, metric: string, amount: int, at: DateTime)

  /** TIER_LIMITS.get(tier, {}).get(metric). */
  function TierLimit(tier: string, metric: string): Option<int> {
    var limits: map<string, map<string, int>> := map[
      "free" := map["ai_tokens" := 10_000, "workflow_executions" := 50],
      "pro" := map["ai_tokens" := 100_000, "workflow_executions" := 500],
      "enterprise" := map["ai_tokens" := 1_000_000, "workflow_executions" := 5_000]];
    if tier in limits && metric in limits[tier] then Some(limits[tier][metric]) else None
  }

  /** What was charged to a business and metric at instants from lo to hi. */
  function Charged(log: seq<Increment>, b: string, m: string, lo: int, hi: int): int {
    if log == [] then 0
    else
      var i := log[|log| - 1];
      Charged(log[..|log| - 1], b, m, lo, hi)
      + if i.business == b && i.metric == m && lo <= Instant(i.at) <= hi then i.amount else 0
  }

  function TotalCharged(log: seq<Increment>): int {
    if log == [] then 0 else TotalCharged(log[..|log| - 1]) + log[|log| - 1].amount
  }

  function TotalUsage(rows: seq<UsageMeter>): int {
    if rows == [] then 0 else TotalUsage(rows[..|rows| - 1]) + rows[|rows| - 1].usage
  }

  /** Charges add up over the history, and a single increment counts in full exactly when it is of the business
      and metric and its instant lies in the interval. */
  lemma {:induction false} ChargesAddUp(log: seq<Increment>, more: seq<Increment>, x: Increment, b: string, m: string,
                                        lo: int, hi: int)
    ensures Charged(log + more, b, m, lo, hi) == Charged(log, b, m, lo, hi) + Charged(more, b, m, lo, hi)
    ensures TotalCharged(log + more) == TotalCharged(log) + TotalCharged(more)
    ensures Charged([], b, m, lo, hi) == 0 && TotalCharged([]) == 0 && TotalCharged([x]) == x.amount
    ensures Charged([x], b, m, lo, hi)
         == if x.business == b && x.metric == m && lo <= Instant(x.at) <= hi then x.amount else 0
  {
    assert [x][..0] == [];
    hide Instant;
    if more == [] {
      assert log + more == log;
    } else {
      var n := |more| - 1;
      ChargesAddUp(log, more[..n], x, b, m, lo, hi);
      assert (log + more)[..|log| + n] == log + more[..n];
    }
  }

  lemma {:induction false} UsageAddsUp(rows: seq<UsageMeter>, more: seq<UsageMeter>, r: UsageMeter)
    ensures TotalUsage(rows + more) == TotalUsage(rows) + TotalUsage(more)
    ensures TotalUsage([]) == 0 && TotalUsage([r]) == r.usage
  {
    assert [r][..0] == [];
    if more == [] {
      assert rows + more == rows;
    } else {
      var n := |more| - 1;
      UsageAddsUp(rows, more[..n], r);
      assert (rows + more)[..|rows| + n] == rows + more[..n];
    }
  }

  /** Workflow executions per month by tier: each paid tier has ten times the one below it, and a tier or metric
      outside the table has no limit. */
  lemma TierTable(tier: string, metric: string)
    ensures TierLimit("free", "workflow_executions") == Some(50)
    ensures TierLimit("pro", "workflow_executions") == Some(500)
    ensures TierLimit("enterprise", "workflow_executions") == Some(5_000)
    ensures TierLimit("free", "ai_tokens") == Some(10_000)
    ensures TierLimit("pro", "ai_tokens") == Some(100_000)
    ensures TierLimit("enterprise", "ai_tokens") == Some(1_000_000)
    ensures TierLimit(tier, metric).Some? <==>
              tier in {"free", "pro", "enterprise"} && metric in {"ai_tokens", "workflow_executions"}
  {
  }

  /** The filter of get_current_meter. */
  predicate Matches(r: UsageMeter, b: string, m: string, instant: int) {
    r.business == b && r.metric == m && r.cycleStart <= instant <= r.cycleEnd
  }

  /** uq_business_metric_cycle. */
  predicate SameKey(r: UsageMeter, b: string, m: string, start: int) {
    r.business == b && r.metric == m && r.cycleStart == start
  }

  ghost predicate UniqueKeys(rows: seq<UsageMeter>) {
    forall i, j :: 0 <= i < j < |rows| ==> !SameKey(rows[i], rows[j].business, rows[j].metric, rows[j].cycleStart)
  }

  ghost predicate IsCycle(start: int, end: int) {
    exists t: DateTime :: Valid(t) && CycleStart(t) == start && CycleEnd(t) == end
  }

  /** A row carries exactly what was charged in its cycle. */
  ghost predicate Faithful(r: UsageMeter, log: seq<Increment>) {
    IsCycle(r.cycleStart, r.cycleEnd) && r.usage == Charged(log, r.business, r.metric, r.cycleStart, r.cycleEnd)
  }

  ghost predicate Covers(rows: seq<UsageMeter>, x: Increment) {
    exists k :: 0 <= k < |rows| && Matches(rows[k], x.business, x.metric, Instant(x.at))
  }

  ghost predicate RowsFollowLog(rows: seq<UsageMeter>, log: seq<Increment>) {
    && (forall k :: 0 <= k < |rows| ==> Faithful(rows[k], log))
    && (forall j :: 0 <= j < |log| ==> Valid(log[j].at) && Covers(rows, log[j]))
  }

  /** Each row carries exactly what was charged in its cycle, and the rows together carry everything charged. */
  ghost predicate Consistent(rows: seq<UsageMeter>, log: seq<Increment>) {
    UniqueKeys(rows) && RowsFollowLog(rows, log) && TotalUsage(rows) == TotalCharged(log)
  }

  lemma {:induction false} ChargedNothing(log: seq<Increment>, b: string, m: string, lo: int, hi: int)
    requires forall i :: i in log ==> !(i.business == b && i.metric == m && lo <= Instant(i.at) <= hi)
    ensures Charged(log, b, m, lo, hi) == 0
  {
    if log != [] {
      ChargedNothing(log[..|log| - 1], b, m, lo, hi);
      assert log[|log| - 1] in log;
    }
  }

  lemma {:induction false} TotalUsageUpdate(rows: seq<UsageMeter>, i: nat, r: UsageMeter)
    requires i < |rows|
    ensures TotalUsage(rows[i := r]) == TotalUsage(rows) - rows[i].usage + r.usage
  {
    var n := |rows| - 1;
    if i < n {
      assert rows[i := r][..n] == rows[..n][i := r];
      TotalUsageUpdate(rows[..n], i, r);
    } else {
      assert rows[i := r][..n] == rows[..n];
    }
  }

  /** Rows are cycles, so the filter of get_current_meter and the unique constraint pick the same rows. */
  lemma MatchIsKey(r: UsageMeter, b: string, m: string, now: DateTime)
    requires Valid(now) && IsCycle(r.cycleStart, r.cycleEnd)
    ensures Matches(r, b, m, Instant(now)) <==> SameKey(r, b, m, CycleStart(now))
    ensures Matches(r, b, m, Instant(now)) ==> r.cycleEnd == CycleEnd(now)
  {
    var t :| Valid(t) && CycleStart(t) == r.cycleStart && CycleEnd(t) == r.cycleEnd;
    CycleDecided(t, now);
  }

  /** The usage_meters table. `log` is the history of increments, for the specification only. */
  class MeterStore {
    var rows: seq<UsageMeter>
    ghost var log: seq<Increment>

    ghost predicate Valid()
      reads this
    {
      Consistent(rows, log)
    }

    constructor ()
      ensures Valid() && log == []
    {
      rows, log := [], [];
    }

    /** INSERT ... ON CONFLICT (business, metric, cycle start) DO UPDATE SET usage = usage + amount. */
    method IncrementUsage(b: string, m: string, amount: int, now: DateTime)
      requires Valid() && Calendar.Valid(now)
      modifies this
      ensures Valid() && log == old(log) + [Increment(b, m, amount, now)]
      ensures forall k :: 0 <= k < |old(rows)| ==>
                var r := old(rows)[k];
                k < |rows| && rows[k] == if r.business == b && r.metric == m && r.cycleStart == CycleStart(now)
                                         then r.(usage := r.usage + amount) else r
      ensures rows[|old(rows)|..]
           == if exists k :: 0 <= k < |old(rows)| && old(rows)[k].business == b && old(rows)[k].metric == m
                             && old(rows)[k].cycleStart == CycleStart(now)
              then [] else [UsageMeter(b, m, CycleStart(now), CycleEnd(now), amount)]
    {
      hide Consistent, Calendar.Instant;
      ghost var x := Increment(b, m, amount, now);
      var (start, end) := CurrentCycle(now);
      var i := Conflict(b, m, Instant(start));
      OneRowPerKey(rows, log);
      assert forall k :: 0 <= k < |rows| && k != i ==> !SameKey(rows[k], b, m, CycleStart(now));
      if i < |rows| {
        Touched(rows, i, x, log);
        rows := rows[i := rows[i].(usage := rows[i].usage + amount)];
      } else {
        var row := UsageMeter(b, m, Instant(start), Instant(end), amount);
        Inserted(rows, row, x, log);
        rows := rows + [row];
      }
      log := log + [x];
    }

    /** The row the insert conflicts with, or |rows| when there is none. */
    method Conflict(b: string, m: string, start: int) returns (i: nat)
      ensures i <= |rows|
      ensures i < |rows| ==> SameKey(rows[i], b, m, start)
      ensures forall k :: 0 <= k < i ==> !SameKey(rows[k], b, m, start)
    {
      i := 0;
      while i < |rows| && !SameKey(rows[i], b, m, start)
        invariant i <= |rows|
        invariant forall k :: 0 <= k < i ==> !SameKey(rows[k], b, m, start)
      {
        i := i + 1;
      }
    }

    /** get_current_meter: scalar_one_or_none never sees two rows, and the row it finds carries exactly
        what was charged in the cycle of `now`; no row means nothing was charged. */
    method GetCurrentMeter(b: string, m: string, now: DateTime) returns (found: Option<UsageMeter>, ghost count: nat)
      requires Valid() && Calendar.Valid(now)
      ensures count == |set i | 0 <= i < |rows| && Matches(rows[i], b, m, Instant(now))| <= 1
      ensures found.Some? <==> count == 1
      ensures (if found.Some? then found.value.usage else 0) == Charged(log, b, m, CycleStart(now), CycleEnd(now))
      ensures found.Some? ==> found.value in rows && Matches(found.value, b, m, Instant(now))
    {
      hide Calendar.Instant, Calendar.CurrentCycle;
      var i := 0;
      while i < |rows| && !Matches(rows[i], b, m, Instant(now))
        invariant 0 <= i <= |rows|
        invariant forall k :: 0 <= k < i ==> !Matches(rows[k], b, m, Instant(now))
      {
        i := i + 1;
      }
      ghost var hits := set k | 0 <= k < |rows| && Matches(rows[k], b, m, Instant(now));
      forall k | 0 <= k < |rows|
        ensures Matches(rows[k], b, m, Instant(now)) <==> SameKey(rows[k], b, m, CycleStart(now))
        ensures Matches(rows[k], b, m, Instant(now)) ==> rows[k].cycleEnd == CycleEnd(now)
      {
        assert Faithful(rows[k], log);
        MatchIsKey(rows[k], b, m, now);
      }
      if i < |rows| {
        assert Faithful(rows[i], log);
        assert hits == {i};
        found, count := Some(rows[i]), 1;
      } else {
        assert hits == {};
        found, count := None, 0;
        NoRowNothingCharged(rows, b, m, now, log);
      }
    }

    /** check_usage_limit: allowed exactly when the tier sets no limit or this cycle's charges plus the
        amount stay within it. A business without an active subscription is on the free tier. */
    method CheckUsageLimit(b: string, m: string, amount: int, subscription: Option<string>, now: DateTime)
      returns (allowed: bool)
      requires Valid() && Calendar.Valid(now)
      ensures var limit := TierLimit(if subscription.Some? then subscription.value else "free", m);
              allowed <==> limit.None? || Charged(log, b, m, CycleStart(now), CycleEnd(now)) + amount <= limit.value
    {
      var tier := if subscription.Some? then subscription.value else "free";
      var limit := TierLimit(tier, m);
      if limit.None? {
        return true;
      }
      var meter, _ := GetCurrentMeter(b, m, now);
      var current := if meter.Some? then meter.value.usage else 0;
      allowed := !(current + amount > limit.value);
    }
  }

  lemma OneRowPerKey(rows: seq<UsageMeter>, log: seq<Increment>)
    requires Consistent(rows, log)
    ensures UniqueKeys(rows)
  {
  }

  /** An increment reaches the row of its own cycle and no other. */
  lemma ChargeReaches(r: UsageMeter, log: seq<Increment>, x: Increment)
    requires Faithful(r, log) && Calendar.Valid(x.at)
    ensures var own := SameKey(r, x.business, x.metric, CycleStart(x.at));
            Faithful(r.(usage := r.usage + if own then x.amount else 0), log + [x])
  {
    MatchIsKey(r, x.business, x.metric, x.at);
    assert (log + [x])[..|log|] == log;
  }

  /** Rows that only change in usage, and added rows, keep every increment covered. */
  lemma StaysCovered(rows: seq<UsageMeter>, rows': seq<UsageMeter>, x: Increment)
    requires Covers(rows, x) && |rows| <= |rows'|
    requires forall k :: 0 <= k < |rows| ==> rows'[k].(usage := 0) == rows[k].(usage := 0)
    ensures Covers(rows', x)
  {
    var k :| 0 <= k < |rows| && Matches(rows[k], x.business, x.metric, Instant(x.at));
    assert rows'[k].(usage := 0) == rows[k].(usage := 0);
    assert Matches(rows'[k], x.business, x.metric, Instant(x.at));
  }

  lemma Touched(rows: seq<UsageMeter>, i: nat, x: Increment, log: seq<Increment>)
    requires Consistent(rows, log) && Calendar.Valid(x.at)
    requires i < |rows| && SameKey(rows[i], x.business, x.metric, CycleStart(x.at))
    ensures Consistent(rows[i := rows[i].(usage := rows[i].usage + x.amount)], log + [x])
  {
    hide Charged, Instant, CurrentCycle, IsCycle;
    var rows', log' := rows[i := rows[i].(usage := rows[i].usage + x.amount)], log + [x];
    TotalUsageUpdate(rows, i, rows'[i]);
    assert log'[..|log|] == log;
    forall k | 0 <= k < |rows| ensures Faithful(rows'[k], log') {
      ChargeReaches(rows[k], log, x);
    }
    forall j | 0 <= j < |log'| ensures Covers(rows', log'[j]) {
      if j < |log| {
        StaysCovered(rows, rows', log[j]);
      } else {
        MatchIsKey(rows[i], x.business, x.metric, x.at);
        assert Matches(rows'[i], x.business, x.metric, Instant(x.at));
      }
    }
  }

  lemma Inserted(rows: seq<UsageMeter>, r: UsageMeter, x: Increment, log: seq<Increment>)
    requires Consistent(rows, log) && Calendar.Valid(x.at)
    requires forall k :: 0 <= k < |rows| ==> !SameKey(rows[k], x.business, x.metric, CycleStart(x.at))
    requires r == UsageMeter(x.business, x.metric, CycleStart(x.at), CycleEnd(x.at), x.amount)
    ensures Consistent(rows + [r], log + [x])
  {
    hide Charged, Instant, CurrentCycle, IsCycle;
    var rows', log' := rows + [r], log + [x];
    assert rows'[..|rows|] == rows && log'[..|log|] == log;
    NoRowNothingCharged(rows, x.business, x.metric, x.at, log);
    NewRow(r, x, log);
    forall k | 0 <= k < |rows'| ensures Faithful(rows'[k], log') {
      if k < |rows| {
        ChargeReaches(rows[k], log, x);
      }
    }
    forall j | 0 <= j < |log'| ensures Covers(rows', log'[j]) {
      if j < |log| {
        StaysCovered(rows, rows', log[j]);
      } else {
        assert Matches(rows'[|rows|], x.business, x.metric, Instant(x.at));
      }
    }
  }

  lemma NewRow(r: UsageMeter, x: Increment, log: seq<Increment>)
    requires Calendar.Valid(x.at) && Charged(log, x.business, x.metric, CycleStart(x.at), CycleEnd(x.at)) == 0
    requires r == UsageMeter(x.business, x.metric, CycleStart(x.at), CycleEnd(x.at), x.amount)
    ensures Faithful(r, log + [x]) && Matches(r, x.business, x.metric, Instant(x.at))
  {
    assert IsCycle(r.cycleStart, r.cycleEnd);
    assert Faithful(r.(usage := 0), log);
    ChargeReaches(r.(usage := 0), log, x);
    CycleContainsNow(x.at);
  }

  lemma NoRowNothingCharged(rows: seq<UsageMeter>, b: string, m: string, now: DateTime, log: seq<Increment>)
    requires RowsFollowLog(rows, log) && Calendar.Valid(now)
    requires forall k :: 0 <= k < |rows| ==> !SameKey(rows[k], b, m, CycleStart(now))
    ensures Charged(log, b, m, CycleStart(now), CycleEnd(now)) == 0
  {
    hide Instant, CurrentCycle;
    forall x | x in log ensures !(x.business == b && x.metric == m && CycleStart(now) <= Instant(x.at) <= CycleEnd(now))
    {
      if x.business == b && x.metric == m && CycleStart(now) <= Instant(x.at) <= CycleEnd(now) {
        var j :| 0 <= j < |log| && log[j] == x;
        assert Covers(rows, log[j]);
        var k :| 0 <= k < |rows| && Matches(rows[k], b, m, Instant(x.at));
        assert Faithful(rows[k], log);
        MatchIsKey(rows[k], b, m, x.at);
        CycleDecided(now, x.at);
        assert false;
      }
    }
    ChargedNothing(log, b, m, CycleStart(now), CycleEnd(now));
  }
}
