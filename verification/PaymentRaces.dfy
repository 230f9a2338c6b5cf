/** Overlapping verifications of payments: each reads its payment's status, and commits and announces the success
    in a later step. */
module PaymentRaces {
  import opened Payments
  import C = CheckThenAct

  datatype State = State(orders: seq<Order>, payments: seq<Payment>, events: seq<Event>, flight: map<nat, C.Phase<nat>>)

  /** The payments that are no longer pending. */
  function Left(payments: seq<Payment>): set<nat> {
    set i: nat | i < |payments| && payments[i].status != Pending
  }

  /** The payments whose success was announced, in order. */
  function Announcements(events: seq<Event>): seq<nat> {
    if events == [] then []
    else
      var e := events[|events| - 1];
      Announcements(events[..|events| - 1]) + if e.PaymentSuccessful? then [e.payment] else []
  }

  /** A verification as a call that checks and then acts. */
  function View(s: State): C.State<nat> {
    C.State(Left(s.payments), s.flight, Announcements(s.events))
  }

  ghost predicate InRange(s: State) {
    && (forall e :: e in s.flight ==> s.flight[e].key < |s.payments|)
    && (forall i :: 0 <= i < |s.payments| ==> s.payments[i].order < |s.orders|)
  }

  predicate Enabled(s: State, step: C.Step<nat>, k: nat) {
    !step.Spend? && (step.Arrive? ==> step.key < |s.payments|) && C.Enabled(View(s), step, k)
  }

  /** Arrive is a call with the payment's reference, Check its read of the row (a payment that is not pending is
      returned as it is), Act the commit of payment and order and the event. */
  function Next(s: State, step: C.Step<nat>, k: nat): State
    requires InRange(s) && Enabled(s, step, k)
  {
    match step
    case Arrive(e, i) => s.(flight := s.flight[e := C.Arrived(i)])
    case Check(e) =>
      var i := s.flight[e].key;
      if s.payments[i].status != Pending then s.(flight := s.flight - {e})
          else s.(flight := s.flight[e := C.Cleared(i)])
    case Act(e) =>
      var i := s.flight[e].key;
      var p := s.payments[i];
      State(s.orders[p.order := s.orders[p.order].(status := Completed)],
            s.payments[i := p.(status := Success)],
            s.events + [PaymentSuccessful(i, p.order, p.amount)],
            s.flight - {e})
    case Leave(e) => s.(flight := s.flight - {e})
    case Wait => s
  }

  lemma ActSimulates(s: State, e: nat, k: nat)
    requires InRange(s) && Enabled(s, C.Act(e), k)
    ensures InRange(Next(s, C.Act(e), k)) && |Next(s, C.Act(e), k).payments| == |s.payments|
    ensures View(Next(s, C.Act(e), k)) == C.Next(View(s), C.Act(e), k)
  {
    var s', i := Next(s, C.Act(e), k), s.flight[e].key;
    assert Left(s'.payments) == Left(s.payments) + {i};
    assert s'.events[..|s.events|] == s.events;
  }

  /** The concrete step is the step of the view. */
  lemma StepSimulates(s: State, step: C.Step<nat>, k: nat)
    requires InRange(s) && Enabled(s, step, k)
    ensures InRange(Next(s, step, k)) && |Next(s, step, k).payments| == |s.payments|
    ensures View(Next(s, step, k)) == C.Next(View(s), step, k)
  {
    hide Announcements;
    match step
    case Act(e) => ActSimulates(s, e, k);
    case _ =>
  }

  ghost predicate ValidRun(s: State, run: seq<C.Step<nat>>, k: nat)
    requires InRange(s)
    decreases |run|
  {
    run == [] || (Enabled(s, run[0], k) && (StepSimulates(s, run[0], k); ValidRun(Next(s, run[0], k), run[1..], k)))
  }

  ghost function Final(s: State, run: seq<C.Step<nat>>, k: nat): State
    requires InRange(s) && ValidRun(s, run, k)
    decreases |run|
  {
    if run == [] then s
    else
      StepSimulates(s, run[0], k);
      Final(Next(s, run[0], k), run[1..], k)
  }

  lemma {:induction false} RunSimulates(s: State, run: seq<C.Step<nat>>, k: nat)
    requires InRange(s) && ValidRun(s, run, k)
    ensures C.ValidRun(View(s), run, k) && View(Final(s, run, k)) == C.Final(View(s), run, k)
    decreases |run|
  {
    hide Next, C.Next, View, C.Enabled;
    if run != [] {
      StepSimulates(s, run[0], k);
      RunSimulates(Next(s, run[0], k), run[1..], k);
    }
  }

  /** A run of the view about one payment is a run of the verifications. */
  lemma {:induction false} RunLifts(s: State, run: seq<C.Step<nat>>, k: nat, i: nat)
    requires InRange(s) && i < |s.payments| && C.About(run, i) && C.ValidRun(View(s), run, k)
    ensures ValidRun(s, run, k)
    decreases |run|
  {
    hide Next, C.Next, View, C.Enabled, InRange;
    if run != [] {
      StepSimulates(s, run[0], k);
      RunLifts(Next(s, run[0], k), run[1..], k, i);
    }
  }

  lemma {:induction false} AnnouncedTimes(events: seq<Event>, i: nat)
    ensures C.Times(Announcements(events), i) == Announced(events, i)
  {
    if events != [] {
      var n := |events| - 1;
      AnnouncedTimes(events[..n], i);
      var before, e := Announcements(events[..n]), events[n];
      if e.PaymentSuccessful? {
        assert (before + [e.payment])[..|before|] == before;
      } else {
        assert before + [] == before;
      }
    }
  }

  /** A verification that runs alone does what verify_payment does: it completes a pending payment and its order
      and announces it, and leaves any other payment as it is. */
  lemma AloneIsVerify(s: State, k: nat, i: nat) returns (run: seq<C.Step<nat>>)
    requires InRange(s) && s.flight == map[] && k >= 1 && i < |s.payments|
    ensures ValidRun(s, run, k)
    ensures var p := s.payments[i];
            Final(s, run, k) == if p.status == Pending then
                State(s.orders[p.order := s.orders[p.order].(status := Completed)],
                      s.payments[i := p.(status := Success)],
                      s.events + [PaymentSuccessful(i, p.order, p.amount)],
                      map[])
              else s
  {
    var s1 := Next(s, C.Arrive(0, i), k);
    StepSimulates(s, C.Arrive(0, i), k);
    var s2 := Next(s1, C.Check(0), k);
    StepSimulates(s1, C.Check(0), k);
    if s.payments[i].status == Pending {
      OneStep(s2, C.Act(0), k);
      TwoSteps(s, C.Arrive(0, i), C.Check(0), [C.Act(0)], k);
      run := [C.Arrive(0, i), C.Check(0)] + [C.Act(0)];
      assert Final(s, run, k).flight == map[];
    } else {
      assert ValidRun(s2, [], k);
      TwoSteps(s, C.Arrive(0, i), C.Check(0), [], k);
      run := [C.Arrive(0, i), C.Check(0)] + [];
      assert s2 == s;
    }
  }

  lemma OneStep(s: State, x: C.Step<nat>, k: nat)
    requires InRange(s) && Enabled(s, x, k)
    ensures ValidRun(s, [x], k) && Final(s, [x], k) == Next(s, x, k)
  {
    StepSimulates(s, x, k);
    var run := [x];
    assert run[0] == x && run[1..] == [];
    assert ValidRun(Next(s, x, k), run[1..], k);
  }

  lemma TwoSteps(s: State, x: C.Step<nat>, y: C.Step<nat>, rest: seq<C.Step<nat>>, k: nat)
    requires InRange(s) && Enabled(s, x, k) && InRange(Next(s, x, k)) && Enabled(Next(s, x, k), y, k)
    requires InRange(Next(Next(s, x, k), y, k)) && ValidRun(Next(Next(s, x, k), y, k), rest, k)
    ensures ValidRun(s, [x, y] + rest, k)
    ensures Final(s, [x, y] + rest, k) == Final(Next(Next(s, x, k), y, k), rest, k)
  {
    hide Next, Enabled, InRange;
    var run := [x, y] + rest;
    var later := run[1..];
    StepSimulates(s, x, k);
    StepSimulates(Next(s, x, k), y, k);
    assert run[0] == x && later[0] == y && later[1..] == rest;
    assert ValidRun(Next(s, x, k), later, k);
  }

  /** Nothing in flight over a sound database, as between the calls of a sequential run. */
  ghost predicate Quiet(s: State) {
    s.flight == map[] && Sound(s.orders, s.payments, s.events)
  }

  lemma QuietStart(s: State, k: nat, i: nat)
    requires Quiet(s) && k >= 1
    ensures InRange(s) && C.InvAt(View(s), k, i)
    ensures i < |s.payments| && s.payments[i].status == Pending ==> Announced(s.events, i) == 0
  {
    AnnouncedTimes(s.events, i);
    assert C.Holders(View(s), i) == {};
    if i >= |s.payments| { NotAnnounced(s.events, i); }
  }

  /** With at most k verifications in flight a payment's success is announced at most k times. */
  lemma AnnouncedAtMostK(s: State, run: seq<C.Step<nat>>, k: nat, i: nat)
    requires Quiet(s) && k >= 1 && InRange(s) && ValidRun(s, run, k)
    ensures Announced(Final(s, run, k).events, i) <= k
  {
    hide View, Sound;
    QuietStart(s, k, i);
    RunSimulates(s, run, k);
    C.AtMostK(View(s), run, k, i);
    ViewDone(Final(s, run, k), i);
  }

  lemma ViewDone(s: State, i: nat)
    ensures C.Times(View(s).done, i) == Announced(s.events, i)
  {
    AnnouncedTimes(s.events, i);
  }

  /** And k times in some run: every verification reads the pending payment before the first one commits. */
  lemma AnnouncedKTimes(s: State, k: nat, i: nat) returns (run: seq<C.Step<nat>>)
    requires Quiet(s) && k >= 1 && InRange(s) && i < |s.payments| && s.payments[i].status == Pending
    ensures ValidRun(s, run, k) && Announced(Final(s, run, k).events, i) == k
  {
    hide Sound, ValidRun, Final;
    QuietStart(s, k, i);
    run := C.KTimesAttained(View(s), k, i);
    RunLifts(s, run, k, i);
    RunSimulates(s, run, k);
    ViewDone(s, i);
    ViewDone(Final(s, run, k), i);
  }

  /** A payment's success is announced at most once in every run if and only if verifications never overlap. */
  lemma OnceIffSequential(s: State, k: nat, i: nat)
    requires Quiet(s) && k >= 1 && InRange(s) && i < |s.payments| && s.payments[i].status == Pending
    ensures (forall run :: ValidRun(s, run, k) ==> Announced(Final(s, run, k).events, i) <= 1) <==> k == 1
  {
    hide Quiet, ValidRun, Final, InRange;
    if k == 1 {
      forall run | ValidRun(s, run, k) ensures Announced(Final(s, run, k).events, i) <= 1 {
        AnnouncedAtMostK(s, run, k, i);
      }
    } else {
      var run := AnnouncedKTimes(s, k, i);
      assert ValidRun(s, run, k) && Announced(Final(s, run, k).events, i) > 1;
    }
  }
}
