/** Overlapping refreshes of one refresh token, up to one second before it expires: each looks the token up in
    the blacklist, and revokes it and issues the new pair in a later step. */
module TokenRaces {
  import opened Tokens
  import C = CheckThenAct

  /** `exchanged` lists the exchanges that went through. */
  datatype State = State(blacklist: map<Token, int>, now: int, flight: map<nat, C.Phase<Token>>, exchanged: seq<Token>)

  /** Call is a step of a refresh; Tick passes time; Logout revokes the token. */
  datatype Step = Call(step: C.Step<Token>) | Tick(now: int) | Logout

  function Deadline(t: Token): int { t.exp * SECOND - SECOND }

  /** Every entry of t was made by a revocation before the deadline, so it lasts beyond it. */
  predicate Lasting(s: State, t: Token) {
    && s.now <= Deadline(t)
    && (t in s.blacklist ==> Deadline(t) < s.blacklist[t])
    && (forall e :: e in s.flight ==> s.flight[e].key == t)
  }

  function View(s: State, t: Token): C.State<Token> {
    C.State(if t in s.blacklist then {t} else {}, s.flight, s.exchanged)
  }

  function StepOf(step: Step, t: Token): C.Step<Token> {
    match step
    case Call(c) => c
    case Tick(_) => C.Wait
    case Logout => C.Spend(t)
  }

  predicate Enabled(s: State, step: Step, t: Token, k: nat) {
    match step
    case Call(c) => !c.Spend? && !c.Wait? && (c.Arrive? ==> c.key == t) && C.Enabled(View(s, t), c, k)
    case Tick(now) => s.now <= now <= Deadline(t)
    case Logout => true
  }

  /** Check is the lookup of a token that decodes and whose user may refresh, Act the revocation and the new
      pair; a refresh that fails on the way leaves. */
  function Next(s: State, step: Step, t: Token, k: nat): State
    requires Lasting(s, t) && Enabled(s, step, t, k)
  {
    match step
    case Tick(now) => s.(now := now)
    case Logout => s.(blacklist := Revoked(s.blacklist, t, s.now))
    case Call(Arrive(e, _)) => s.(flight := s.flight[e := C.Arrived(t)])
    case Call(Check(e)) =>
      if Listed(s.blacklist, t, s.now) then s.(flight := s.flight - {e}) else s.(flight := s.flight[e := C.Cleared(t)])
    case Call(Act(e)) =>
      s.(blacklist := Revoked(s.blacklist, t, s.now), flight := s.flight - {e}, exchanged := s.exchanged + [t])
    case Call(Leave(e)) => s.(flight := s.flight - {e})
  }

  lemma RevocationLasts(blacklist: map<Token, int>, t: Token, now: int)
    requires now <= Deadline(t)
    ensures var b := Revoked(blacklist, t, now); t in b && Deadline(t) < b[t]
  {
    TtlReaches(t, now);
  }

  lemma StepSimulates(s: State, step: Step, t: Token, k: nat)
    requires Lasting(s, t) && Enabled(s, step, t, k)
    ensures Lasting(Next(s, step, t, k), t)
    ensures C.Enabled(View(s, t), StepOf(step, t), k)
    ensures View(Next(s, step, t, k), t) == C.Next(View(s, t), StepOf(step, t), k)
  {
    hide Revoked, Deadline;
    RevocationLasts(s.blacklist, t, s.now);
    assert t in s.blacklist ==> Listed(s.blacklist, t, s.now);
    match step
    case Call(c) =>
      match c {
        case Act(e) => assert View(Next(s, step, t, k), t).spent == View(s, t).spent + {t};
        case _ =>
      }
    case Tick(_) =>
    case Logout => assert View(Next(s, step, t, k), t).spent == View(s, t).spent + {t};
  }

  ghost predicate ValidRun(s: State, run: seq<Step>, t: Token, k: nat)
    requires Lasting(s, t)
    decreases |run|
  {
    run == [] || (Enabled(s, run[0], t, k)
                  && (StepSimulates(s, run[0], t, k); ValidRun(Next(s, run[0], t, k), run[1..], t, k)))
  }

  ghost function Final(s: State, run: seq<Step>, t: Token, k: nat): State
    requires Lasting(s, t) && ValidRun(s, run, t, k)
    decreases |run|
  {
    if run == [] then s
    else
      StepSimulates(s, run[0], t, k);
      Final(Next(s, run[0], t, k), run[1..], t, k)
  }

  function StepsOf(run: seq<Step>, t: Token): seq<C.Step<Token>> {
    seq(|run|, i requires 0 <= i < |run| => StepOf(run[i], t))
  }

  lemma {:induction false} RunSimulates(s: State, run: seq<Step>, t: Token, k: nat)
    requires Lasting(s, t) && ValidRun(s, run, t, k)
    ensures C.ValidRun(View(s, t), StepsOf(run, t), k)
    ensures View(Final(s, run, t, k), t) == C.Final(View(s, t), StepsOf(run, t), k)
    decreases |run|
  {
    hide Next, C.Next, View, C.Enabled, Lasting;
    if run != [] {
      StepSimulates(s, run[0], t, k);
      RunSimulates(Next(s, run[0], t, k), run[1..], t, k);
      assert StepsOf(run, t)[1..] == StepsOf(run[1..], t);
    }
  }

  /** The refresh steps of a run of the view. */
  function Calls(run: seq<C.Step<Token>>): seq<Step> {
    seq(|run|, i requires 0 <= i < |run| => Call(run[i]))
  }

  lemma {:induction false} RunLifts(s: State, run: seq<C.Step<Token>>, t: Token, k: nat)
    requires Lasting(s, t) && C.About(run, t) && C.ValidRun(View(s, t), run, k)
    ensures ValidRun(s, Calls(run), t, k) && StepsOf(Calls(run), t) == run
    decreases |run|
  {
    hide Next, C.Next, View, C.Enabled, Lasting;
    if run != [] {
      StepSimulates(s, Call(run[0]), t, k);
      RunLifts(Next(s, Call(run[0]), t, k), run[1..], t, k);
      assert Calls(run)[1..] == Calls(run[1..]);
    }
  }

  /** A refresh that runs alone revokes the token and exchanges it, or is refused when the token is listed. */
  lemma AloneIsRefresh(s: State, t: Token, k: nat, e: nat)
    requires Lasting(s, t) && s.flight == map[] && k >= 1
    ensures var arrive, check, act := Call(C.Arrive(e, t)), Call(C.Check(e)), Call(C.Act(e));
            && Enabled(s, arrive, t, k)
            && var s1 := Next(s, arrive, t, k);
               Lasting(s1, t) && Enabled(s1, check, t, k)
               && var s2 := Next(s1, check, t, k);
                  if t in s.blacklist && s.now < s.blacklist[t] then s2 == s
                  else Lasting(s2, t) && Enabled(s2, act, t, k)
                       && Next(s2, act, t, k)
                          == s.(blacklist := Revoked(s.blacklist, t, s.now), exchanged := s.exchanged + [t])
  {
    hide Revoked, Deadline;
    var s1 := Next(s, Call(C.Arrive(e, t)), t, k);
    var s2 := Next(s1, Call(C.Check(e)), t, k);
    assert s1.flight - {e} == map[];
    if !Listed(s.blacklist, t, s.now) {
      assert s2.flight - {e} == map[];
    }
  }

  /** No refresh in flight, nothing exchanged yet, and the token not revoked. */
  predicate Fresh(s: State, t: Token) {
    s.flight == map[] && s.exchanged == [] && t !in s.blacklist && s.now <= Deadline(t)
  }

  /** With at most k refreshes in flight the token is exchanged at most k times. */
  lemma ExchangedAtMostK(s: State, run: seq<Step>, t: Token, k: nat)
    requires Fresh(s, t) && ValidRun(s, run, t, k)
    ensures C.Times(Final(s, run, t, k).exchanged, t) <= k
  {
    assert C.Holders(View(s, t), t) == {};
    RunSimulates(s, run, t, k);
    C.AtMostK(View(s, t), StepsOf(run, t), k, t);
  }

  /** And k times in some run. */
  lemma ExchangedKTimes(s: State, t: Token, k: nat) returns (run: seq<Step>)
    requires Fresh(s, t)
    ensures ValidRun(s, run, t, k) && C.Times(Final(s, run, t, k).exchanged, t) == k
  {
    var steps := C.KTimesAttained(View(s, t), k, t);
    run := Calls(steps);
    RunLifts(s, steps, t, k);
    RunSimulates(s, run, t, k);
  }

  /** A refresh token is exchanged at most once in every run up to its last second if and only if refreshes of
      it never overlap. */
  lemma OnceIffSequential(s: State, t: Token, k: nat)
    requires Fresh(s, t) && k >= 1
    ensures (forall run :: ValidRun(s, run, t, k) ==> C.Times(Final(s, run, t, k).exchanged, t) <= 1) <==> k == 1
  {
    hide ValidRun, Final;
    if k == 1 {
      forall run | ValidRun(s, run, t, k) ensures C.Times(Final(s, run, t, k).exchanged, t) <= 1 {
        ExchangedAtMostK(s, run, t, k);
      }
    } else {
      var run := ExchangedKTimes(s, t, k);
      assert ValidRun(s, run, t, k) && C.Times(Final(s, run, t, k).exchanged, t) > 1;
    }
  }
}
