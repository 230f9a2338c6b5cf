/** The check-then-act quota of evaluate_and_run_workflow as a state machine: many evaluations of one
    business interleave their usage check, their actions and their charge while the clock moves on,
    possibly into another month. The tier, and so the limit, is fixed. */
module Quota {
  import opened Calendar

  /** Where an evaluation stands. The check and the charge each read the clock before they reach the
      database, so both are two steps. */
  datatype Phase =
    | Started
    | CheckStamped(cycle: int)
    | Running
    | ChargeStamped(cycle: int)

  /** `usage` is the committed meter per cycle start; evaluations in flight are the keys of `flight`. */
  datatype State = State(clock: DateTime, usage: map<int, nat>, flight: map<nat, Phase>)

  datatype Step =
    | Tick(now: DateTime)
    | Begin(e: nat)
    | StampCheck(e: nat)   // get_current_meter reads the clock
    | ReadMeter(e: nat)    // the query answers; an exhausted quota ends the evaluation
    | StampCharge(e: nat)  // the actions succeeded; _get_current_cycle reads the clock
    | Charge(e: nat)       // the upsert commits
    | Leave(e: nat)        // skipped, a failed action or a storage error: ends without a charge

  function Usage(s: State, cycle: int): nat {
    if cycle in s.usage then s.usage[cycle] else 0
  }

  predicate Enabled(s: State, step: Step, k: nat) {
    match step
    case Tick(now) => Valid(now) && Instant(s.clock) <= Instant(now)
    case Begin(e) => e !in s.flight && |s.flight| < k
    case StampCheck(e) => e in s.flight && s.flight[e].Started?
    case ReadMeter(e) => e in s.flight && s.flight[e].CheckStamped?
    case StampCharge(e) => e in s.flight && s.flight[e].Running?
    case Charge(e) => e in s.flight && s.flight[e].ChargeStamped?
    case Leave(e) => e in s.flight
  }

  function Next(s: State, step: Step, limit: nat, k: nat): State
    requires Enabled(s, step, k)
  {
    match step
    case Tick(now) => s.(clock := now)
    case Begin(e) => s.(flight := s.flight[e := Started])
    case StampCheck(e) => s.(flight := s.flight[e := CheckStamped(CycleStart(s.clock))])
    case ReadMeter(e) =>
      if Usage(s, s.flight[e].cycle) + 1 > limit then s.(flight := s.flight - {e})
      else s.(flight := s.flight[e := Running])
    case StampCharge(e) => s.(flight := s.flight[e := ChargeStamped(CycleStart(s.clock))])
    case Charge(e) =>
      var c := s.flight[e].cycle;
      s.(usage := s.usage[c := Usage(s, c) + 1], flight := s.flight - {e})
    case Leave(e) => s.(flight := s.flight - {e})
  }

  predicate ValidRun(s: State, run: seq<Step>, limit: nat, k: nat)
    decreases |run|
  {
    run == [] || (Enabled(s, run[0], k) && ValidRun(Next(s, run[0], limit, k), run[1..], limit, k))
  }

  function Final(s: State, run: seq<Step>, limit: nat, k: nat): State
    requires ValidRun(s, run, limit, k)
    decreases |run|
  {
    if run == [] then s else Final(Next(s, run[0], limit, k), run[1..], limit, k)
  }

  predicate Initial(s: State) { Valid(s.clock) && s.usage == map[] && s.flight == map[] }

  /** May this evaluation still charge `cycle` without reading that cycle's meter first? */
  predicate MayCharge(p: Phase, cycle: int, clock: int) {
    match p
    case Started => false
    case CheckStamped(c) => c < cycle && clock <= cycle
    case Running => clock <= cycle
    case ChargeStamped(c) => c == cycle
  }

  function Pending(s: State, cycle: int): set<nat> {
    set e | e in s.flight && MayCharge(s.flight[e], cycle, CycleStart(s.clock))
  }

  /** No stamp and no charge lies in a cycle the clock has not reached. */
  ghost predicate Reached(s: State) {
    && Valid(s.clock)
    && (forall e :: e in s.flight && (s.flight[e].CheckStamped? || s.flight[e].ChargeStamped?) ==>
          s.flight[e].cycle <= CycleStart(s.clock))
    && (forall c :: c in s.usage ==> c <= CycleStart(s.clock))
  }

  ghost predicate Inv(s: State, limit: nat, k: nat) {
    Reached(s) && |s.flight| <= k && forall c :: Usage(s, c) + |Pending(s, c)| <= limit - 1 + k
  }

  lemma CardLe<T>(a: set<T>, b: set<T>)
    requires a <= b
    ensures |a| <= |b|
  {
    assert b == a + (b - a);
  }

  lemma PendingInFlight(s: State, c: int)
    ensures |Pending(s, c)| <= |s.flight|
  {
    CardLe(Pending(s, c), s.flight.Keys);
  }

  lemma StepKeepsReached(s: State, step: Step, limit: nat, k: nat)
    requires Reached(s) && Enabled(s, step, k)
    ensures Reached(Next(s, step, limit, k))
    ensures step.Tick? ==> CycleStart(s.clock) <= CycleStart(step.now)
  {
    hide Instant, CurrentCycle;
    if step.Tick? { CycleStartMonotone(s.clock, step.now); }
  }

  lemma StepKeepsInv(s: State, step: Step, limit: nat, k: nat)
    requires limit >= 1 && Inv(s, limit, k) && Enabled(s, step, k)
    ensures Inv(Next(s, step, limit, k), limit, k)
  {
    hide Instant, CurrentCycle, Reached, Pending;
    var s' := Next(s, step, limit, k);
    StepKeepsReached(s, step, limit, k);
    if step.Begin? {
      assert s'.flight.Keys == s.flight.Keys + {step.e};
    } else {
      assert s'.flight.Keys <= s.flight.Keys;
      CardLe(s'.flight.Keys, s.flight.Keys);
    }
    forall c ensures Usage(s', c) + |Pending(s', c)| <= limit - 1 + k {
      StepKeepsBound(s, step, limit, k, c);
    }
  }

  lemma StepKeepsBound(s: State, step: Step, limit: nat, k: nat, c: int)
    requires limit >= 1 && Inv(s, limit, k) && Enabled(s, step, k)
    requires step.Tick? ==> CycleStart(s.clock) <= CycleStart(step.now)
    ensures var s' := Next(s, step, limit, k); Usage(s', c) + |Pending(s', c)| <= limit - 1 + k
  {
    hide Instant, CurrentCycle;
    var s' := Next(s, step, limit, k);
    assert Usage(s, c) + |Pending(s, c)| <= limit - 1 + k;
    match step
    case Charge(e) =>
      if s.flight[e].cycle == c {
        assert e in Pending(s, c);
        assert Pending(s', c) == Pending(s, c) - {e};
      } else {
        CardLe(Pending(s', c), Pending(s, c));
      }
    case ReadMeter(e) =>
      if Usage(s, c) < limit {
        PendingInFlight(s', c);
        assert s'.flight.Keys <= s.flight.Keys;
        CardLe(s'.flight.Keys, s.flight.Keys);
      } else {
        CardLe(Pending(s', c), Pending(s, c));
      }
    case StampCheck(e) =>
      if CycleStart(s.clock) < c {
        PendingInFlight(s', c);
        assert s'.flight.Keys == s.flight.Keys;
      } else {
        CardLe(Pending(s', c), Pending(s, c));
      }
    case _ =>
      CardLe(Pending(s', c), Pending(s, c));
  }

  lemma {:induction false} RunKeepsInv(s: State, run: seq<Step>, limit: nat, k: nat)
    requires limit >= 1 && Inv(s, limit, k) && ValidRun(s, run, limit, k)
    ensures Inv(Final(s, run, limit, k), limit, k)
    decreases |run|
  {
    if run != [] {
      StepKeepsInv(s, run[0], limit, k);
      RunKeepsInv(Next(s, run[0], limit, k), run[1..], limit, k);
    }
  }

  /** With at most k evaluations in flight, no cycle is ever charged more than limit - 1 + k,
      whatever the interleaving and wherever the months fall. */
  lemma QuotaOvershootBound(s: State, run: seq<Step>, limit: nat, k: nat, cycle: int)
    requires limit >= 1 && k >= 1 && Initial(s) && ValidRun(s, run, limit, k)
    ensures Usage(Final(s, run, limit, k), cycle) <= limit - 1 + k
  {
    forall c ensures |Pending(s, c)| == 0 { assert Pending(s, c) == {}; }
    RunKeepsInv(s, run, limit, k);
    var end := Final(s, run, limit, k);
    assert Usage(end, cycle) + |Pending(end, cycle)| <= limit - 1 + k;
  }

  lemma {:induction false} RunsCompose(s: State, a: seq<Step>, b: seq<Step>, limit: nat, k: nat)
    requires ValidRun(s, a, limit, k) && ValidRun(Final(s, a, limit, k), b, limit, k)
    ensures ValidRun(s, a + b, limit, k)
    ensures Final(s, a + b, limit, k) == Final(Final(s, a, limit, k), b, limit, k)
    decreases |a|
  {
    if a == [] {
      assert a + b == b;
    } else {
      assert (a + b)[0] == a[0] && (a + b)[1..] == a[1..] + b;
      RunsCompose(Next(s, a[0], limit, k), a[1..], b, limit, k);
    }
  }

  /** Evaluations 0 to n - 1, all past the check. */
  function AllRunning(n: nat): (m: map<nat, Phase>)
    ensures |m| == n && forall e: nat :: e in m <==> e < n
  {
    if n == 0 then map[] else AllRunning(n - 1)[n - 1 := Running]
  }

  /** n evaluations pass the check on the same meter reading. */
  lemma {:induction false} AllAdmitted(s: State, n: nat, limit: nat, k: nat) returns (run: seq<Step>)
    requires s.flight == map[] && n <= k && Usage(s, CycleStart(s.clock)) < limit
    ensures ValidRun(s, run, limit, k)
    ensures Final(s, run, limit, k) == s.(flight := AllRunning(n))
  {
    hide Instant, CurrentCycle;
    if n == 0 {
      run := [];
    } else {
      var pre := AllAdmitted(s, n - 1, limit, k);
      var e := n - 1;
      var mid := Final(s, pre, limit, k);
      var s1 := Next(mid, Begin(e), limit, k);
      var s2 := Next(s1, StampCheck(e), limit, k);
      var s3 := Next(s2, ReadMeter(e), limit, k);
      assert s3.flight == AllRunning(n);
      var post := [Begin(e), StampCheck(e), ReadMeter(e)];
      assert post[1..] == [StampCheck(e), ReadMeter(e)] && post[1..][1..] == [ReadMeter(e)];
      assert post[1..][1..][1..] == [];
      assert ValidRun(s3, [], limit, k) && ValidRun(s2, [ReadMeter(e)], limit, k);
      assert Final(s2, [ReadMeter(e)], limit, k) == Final(s3, [], limit, k) == s3;
      assert Final(s1, post[1..], limit, k) == s3;
      assert s3 == s.(flight := AllRunning(n));
      RunsCompose(s, pre, post, limit, k);
      run := pre + post;
    }
  }

  /** Evaluations that passed the check together all charge, whatever the meter says by then. */
  lemma {:induction false} AllCharged(s: State, n: nat, limit: nat, k: nat) returns (run: seq<Step>)
    requires s.flight == AllRunning(n)
    ensures ValidRun(s, run, limit, k)
    ensures var end := Final(s, run, limit, k); var c := CycleStart(s.clock);
            end.clock == s.clock && end.flight == map[] && Usage(end, c) == Usage(s, c) + n
            && forall c' :: c' != c ==> Usage(end, c') == Usage(s, c')
    decreases n
  {
    hide Instant, CurrentCycle;
    if n == 0 {
      run := [];
    } else {
      var e := n - 1;
      var s1 := Next(s, StampCharge(e), limit, k);
      var s2 := Next(s1, Charge(e), limit, k);
      assert s2.flight == AllRunning(n - 1);
      var rest := AllCharged(s2, n - 1, limit, k);
      run := [StampCharge(e), Charge(e)] + rest;
      assert run[1..] == [Charge(e)] + rest && run[1..][1..] == rest;
      assert ValidRun(s1, run[1..], limit, k);
    }
  }

  /** One evaluation after the other uses the quota up to any value within the limit. */
  lemma {:induction false} UsedUp(s: State, used: nat, limit: nat, k: nat) returns (run: seq<Step>)
    requires s.flight == map[] && Usage(s, CycleStart(s.clock)) == 0 && used <= limit && k >= 1
    ensures ValidRun(s, run, limit, k)
    ensures var end := Final(s, run, limit, k);
            end.clock == s.clock && end.flight == map[] && Usage(end, CycleStart(s.clock)) == used
            && forall c :: c != CycleStart(s.clock) ==> Usage(end, c) == Usage(s, c)
  {
    hide Instant, CurrentCycle;
    if used == 0 {
      run := [];
    } else {
      var pre := UsedUp(s, used - 1, limit, k);
      var burst := Burst(Final(s, pre, limit, k), 1, limit, k);
      RunsCompose(s, pre, burst, limit, k);
      run := pre + burst;
    }
  }

  lemma Burst(s: State, n: nat, limit: nat, k: nat) returns (run: seq<Step>)
    requires s.flight == map[] && n <= k && Usage(s, CycleStart(s.clock)) < limit
    ensures ValidRun(s, run, limit, k)
    ensures var end := Final(s, run, limit, k); var c := CycleStart(s.clock);
            end.clock == s.clock && end.flight == map[] && Usage(end, c) == Usage(s, c) + n
            && forall c' :: c' != c ==> Usage(end, c') == Usage(s, c')
  {
    hide Instant, CurrentCycle;
    var admit := AllAdmitted(s, n, limit, k);
    var charge := AllCharged(Final(s, admit, limit, k), n, limit, k);
    RunsCompose(s, admit, charge, limit, k);
    run := admit + charge;
  }

  /** From any quiet state whose cycle is still unused, that cycle is charged limit - 1 + k in some run. */
  lemma Overshoot(s: State, limit: nat, k: nat) returns (run: seq<Step>)
    requires limit >= 1 && k >= 1 && s.flight == map[] && Usage(s, CycleStart(s.clock)) == 0
    ensures ValidRun(s, run, limit, k)
    ensures var end := Final(s, run, limit, k);
            && end.clock == s.clock && end.flight == map[] && Usage(end, CycleStart(s.clock)) == limit - 1 + k
            && forall c :: c != CycleStart(s.clock) ==> Usage(end, c) == Usage(s, c)
  {
    hide Instant, CurrentCycle;
    var pre := UsedUp(s, limit - 1, limit, k);
    var burst := Burst(Final(s, pre, limit, k), k, limit, k);
    RunsCompose(s, pre, burst, limit, k);
    run := pre + burst;
  }

  /** The bound is attained: some run of at most k concurrent evaluations charges limit - 1 + k. */
  lemma OvershootAttained(s: State, limit: nat, k: nat) returns (run: seq<Step>)
    requires limit >= 1 && k >= 1 && Initial(s)
    ensures ValidRun(s, run, limit, k)
    ensures Usage(Final(s, run, limit, k), CycleStart(s.clock)) == limit - 1 + k
  {
    run := Overshoot(s, limit, k);
  }

  lemma OneStep(s: State, x: Step, limit: nat, k: nat)
    requires Enabled(s, x, k)
    ensures ValidRun(s, [x], limit, k) && Final(s, [x], limit, k) == Next(s, x, limit, k)
  {
    hide Instant, CurrentCycle;
    var run := [x];
    assert run[0] == x && run[1..] == [];
    assert ValidRun(Next(s, x, limit, k), run[1..], limit, k);
  }

  /** A new month brings a new quota: one run can overshoot in two cycles, each to the full. */
  lemma EachMonthAnew(s: State, next: DateTime, limit: nat, k: nat) returns (run: seq<Step>)
    requires limit >= 1 && k >= 1 && Initial(s) && Valid(next) && CycleStart(s.clock) < CycleStart(next)
    ensures ValidRun(s, run, limit, k)
    ensures Usage(Final(s, run, limit, k), CycleStart(s.clock)) == limit - 1 + k
    ensures Usage(Final(s, run, limit, k), CycleStart(next)) == limit - 1 + k
  {
    hide Instant, CurrentCycle;
    CycleContainsNow(s.clock);
    CycleContainsNow(next);
    CycleDecided(s.clock, next);
    var first := Overshoot(s, limit, k);
    var s1 := Final(s, first, limit, k);
    OneStep(s1, Tick(next), limit, k);
    var s2 := Next(s1, Tick(next), limit, k);
    assert Usage(s1, CycleStart(next)) == Usage(s, CycleStart(next)) == 0;
    var second := Overshoot(s2, limit, k);
    RunsCompose(s1, [Tick(next)], second, limit, k);
    RunsCompose(s, first, [Tick(next)] + second, limit, k);
    run := first + ([Tick(next)] + second);
  }

  /** An evaluation that fails after the check leaves everything as it was. */
  lemma FailureChargesNothing(s: State, e: nat, limit: nat, k: nat)
    requires Enabled(s, Begin(e), k) && Usage(s, CycleStart(s.clock)) < limit
    ensures var run := [Begin(e)] + ([StampCheck(e)] + ([ReadMeter(e)] + [Leave(e)]));
            ValidRun(s, run, limit, k) && Final(s, run, limit, k) == s
  {
    hide Instant, CurrentCycle;
    var s1 := Next(s, Begin(e), limit, k);
    var s2 := Next(s1, StampCheck(e), limit, k);
    var s3 := Next(s2, ReadMeter(e), limit, k);
    OneStep(s, Begin(e), limit, k);
    OneStep(s1, StampCheck(e), limit, k);
    OneStep(s2, ReadMeter(e), limit, k);
    OneStep(s3, Leave(e), limit, k);
    RunsCompose(s2, [ReadMeter(e)], [Leave(e)], limit, k);
    RunsCompose(s1, [StampCheck(e)], [ReadMeter(e)] + [Leave(e)], limit, k);
    RunsCompose(s, [Begin(e)], [StampCheck(e)] + ([ReadMeter(e)] + [Leave(e)]), limit, k);
    assert Next(s3, Leave(e), limit, k).flight == s.flight;
  }

  /** The limit is a hard cap in every run exactly when evaluations never overlap. */
  lemma HardCapIffSequential(s: State, limit: nat, k: nat)
    requires limit >= 1 && k >= 1 && Initial(s)
    ensures (forall run, c :: ValidRun(s, run, limit, k) ==> Usage(Final(s, run, limit, k), c) <= limit) <==> k == 1
  {
    if k == 1 {
      forall run, c | ValidRun(s, run, limit, k) ensures Usage(Final(s, run, limit, k), c) <= limit {
        QuotaOvershootBound(s, run, limit, k, c);
      }
    } else {
      var run := OvershootAttained(s, limit, k);
      assert ValidRun(s, run, limit, k) && Usage(Final(s, run, limit, k), CycleStart(s.clock)) > limit;
    }
  }
}
