/** Overlapping calls that read whether something was spent, spend it later and have an effect once: the shape
    of verify_payment (status, then the success event) and of refresh_tokens (blacklist, then new tokens). */
module CheckThenAct {

  /** Where a call stands: it asked about a key, or it found the key unspent and will act on it. */
  datatype Phase<K> = Arrived(key: K) | Cleared(key: K)

  /** `done` lists the effects that happened; the calls in flight are the keys of `flight`. */
  datatype State<K> = State(spent: set<K>, flight: map<nat, Phase<K>>, done: seq<K>)

  datatype Step<K> =
    | Arrive(e: nat, key: K)
    | Check(e: nat)     // reads whether the key is spent; if so the call ends
    | Act(e: nat)       // spends the key and has the effect
    | Leave(e: nat)     // the call fails without an effect
    | Spend(key: K)     // somebody else spends the key
    | Wait

  predicate Enabled<K(==)>(s: State<K>, step: Step<K>, k: nat) {
    match step
    case Arrive(e, _) => e !in s.flight && |s.flight| < k
    case Check(e) => e in s.flight && s.flight[e].Arrived?
    case Act(e) => e in s.flight && s.flight[e].Cleared?
    case Leave(e) => e in s.flight
    case Spend(_) => true
    case Wait => true
  }

  function Next<K(==)>(s: State<K>, step: Step<K>, k: nat): State<K>
    requires Enabled(s, step, k)
  {
    match step
    case Arrive(e, key) => s.(flight := s.flight[e := Arrived(key)])
    case Check(e) =>
      var key := s.flight[e].key;
      if key in s.spent then s.(flight := s.flight - {e}) else s.(flight := s.flight[e := Cleared(key)])
    case Act(e) =>
      var key := s.flight[e].key;
      State(s.spent + {key}, s.flight - {e}, s.done + [key])
    case Leave(e) => s.(flight := s.flight - {e})
    case Spend(key) => s.(spent := s.spent + {key})
    case Wait => s
  }

  predicate ValidRun<K(==)>(s: State<K>, run: seq<Step<K>>, k: nat)
    decreases |run|
  {
    run == [] || (Enabled(s, run[0], k) && ValidRun(Next(s, run[0], k), run[1..], k))
  }

  function Final<K(==)>(s: State<K>, run: seq<Step<K>>, k: nat): State<K>
    requires ValidRun(s, run, k)
    decreases |run|
  {
    if run == [] then s else Final(Next(s, run[0], k), run[1..], k)
  }

  function Times<K(==)>(done: seq<K>, key: K): nat {
    if done == [] then 0 else Times(done[..|done| - 1], key) + if done[|done| - 1] == key then 1 else 0
  }

  function Holders<K(==)>(s: State<K>, key: K): set<nat> {
    set e | e in s.flight && s.flight[e] == Cleared(key)
  }

  /** At most k calls; effects that happened and effects still to come stay within k; there is none before the key
      is spent. */
  ghost predicate InvAt<K>(s: State<K>, k: nat, key: K) {
    && |s.flight| <= k && (key !in s.spent ==> Times(s.done, key) == 0)
    && Times(s.done, key) + |Holders(s, key)| <= k
  }

  lemma CardLe<T>(a: set<T>, b: set<T>)
    requires a <= b
    ensures |a| <= |b|
  {
    assert b == a + (b - a);
  }

  lemma FlightFits<K>(s: State<K>, step: Step<K>, k: nat)
    requires |s.flight| <= k && Enabled(s, step, k)
    ensures |Next(s, step, k).flight| <= k
    ensures !step.Arrive? ==> Next(s, step, k).flight.Keys <= s.flight.Keys
  {
    var s' := Next(s, step, k);
    if step.Arrive? {
      assert s'.flight.Keys == s.flight.Keys + {step.e};
    } else {
      assert s'.flight.Keys <= s.flight.Keys;
      CardLe(s'.flight.Keys, s.flight.Keys);
    }
  }

  /** Only a check that finds the key unspent makes a new holder. */
  lemma HoldersShrink<K>(s: State<K>, step: Step<K>, k: nat, key: K)
    requires Enabled(s, step, k) && (step.Check? ==> key in s.spent)
    ensures |Holders(Next(s, step, k), key)| <= |Holders(s, key)|
  {
    var s' := Next(s, step, k);
    forall e | e in Holders(s', key) ensures e in Holders(s, key) {
      assert s'.flight[e] == Cleared(key);
    }
    CardLe(Holders(s', key), Holders(s, key));
  }

  lemma ActKeepsInv<K>(s: State<K>, e: nat, k: nat, key: K)
    requires InvAt(s, k, key) && Enabled(s, Act(e), k)
    ensures InvAt(Next(s, Act(e), k), k, key)
  {
    var s' := Next(s, Act(e), k);
    FlightFits(s, Act(e), k);
    assert s'.done[..|s.done|] == s.done;
    if s.flight[e].key == key {
      assert e in Holders(s, key);
      assert Holders(s', key) == Holders(s, key) - {e};
    } else {
      HoldersShrink(s, Act(e), k, key);
    }
  }

  lemma CheckKeepsInv<K>(s: State<K>, e: nat, k: nat, key: K)
    requires InvAt(s, k, key) && Enabled(s, Check(e), k)
    ensures InvAt(Next(s, Check(e), k), k, key)
  {
    hide Times;
    FlightFits(s, Check(e), k);
    if key in s.spent {
      HoldersShrink(s, Check(e), k, key);
    } else {
      var s' := Next(s, Check(e), k);
      CardLe(Holders(s', key), s'.flight.Keys);
    }
  }

  lemma StepKeepsInv<K>(s: State<K>, step: Step<K>, k: nat, key: K)
    requires InvAt(s, k, key) && Enabled(s, step, k)
    ensures InvAt(Next(s, step, k), k, key)
  {
    hide Times, Holders;
    match step
    case Act(e) => ActKeepsInv(s, e, k, key);
    case Check(e) => CheckKeepsInv(s, e, k, key);
    case _ =>
      FlightFits(s, step, k);
      HoldersShrink(s, step, k, key);
  }

  lemma {:induction false} RunKeepsInv<K>(s: State<K>, run: seq<Step<K>>, k: nat, key: K)
    requires InvAt(s, k, key) && ValidRun(s, run, k)
    ensures InvAt(Final(s, run, k), k, key)
    decreases |run|
  {
    hide InvAt, Next, Enabled;
    if run != [] {
      StepKeepsInv(s, run[0], k, key);
      RunKeepsInv(Next(s, run[0], k), run[1..], k, key);
    }
  }

  /** With at most k calls in flight, whatever the interleaving, a key has its effect at most k times. */
  lemma AtMostK<K>(s: State<K>, run: seq<Step<K>>, k: nat, key: K)
    requires InvAt(s, k, key) && ValidRun(s, run, k)
    ensures Times(Final(s, run, k).done, key) <= k
  {
    RunKeepsInv(s, run, k, key);
  }

  // ---- The bound is attained ----

  lemma {:induction false} RunsCompose<K>(s: State<K>, a: seq<Step<K>>, b: seq<Step<K>>, k: nat)
    requires ValidRun(s, a, k) && ValidRun(Final(s, a, k), b, k)
    ensures ValidRun(s, a + b, k) && Final(s, a + b, k) == Final(Final(s, a, k), b, k)
    decreases |a|
  {
    hide Next, Enabled;
    if a == [] {
      assert a + b == b;
    } else {
      assert (a + b)[0] == a[0] && (a + b)[1..] == a[1..] + b;
      RunsCompose(Next(s, a[0], k), a[1..], b, k);
    }
  }

  lemma OneStep<K>(s: State<K>, x: Step<K>, k: nat)
    requires Enabled(s, x, k)
    ensures ValidRun(s, [x], k) && Final(s, [x], k) == Next(s, x, k)
  {
    var run := [x];
    assert run[0] == x && run[1..] == [];
    assert ValidRun(Next(s, x, k), run[1..], k);
  }

  /** Calls 0 to n - 1, all cleared for the key. */
  function AllCleared<K>(n: nat, key: K): (m: map<nat, Phase<K>>)
    ensures |m| == n && forall e: nat :: e in m <==> e < n
  {
    if n == 0 then map[] else AllCleared(n - 1, key)[n - 1 := Cleared(key)]
  }

  /** The steps of calls about one key only. */
  predicate About<K(==)>(run: seq<Step<K>>, key: K) {
    forall i :: 0 <= i < |run| ==> !run[i].Spend? && !run[i].Wait? && (run[i].Arrive? ==> run[i].key == key)
  }

  /** One more call arrives and checks. */
  lemma OneMore<K>(s: State<K>, n: nat, k: nat, key: K) returns (run: seq<Step<K>>)
    requires s.flight == AllCleared(n, key) && n < k && key !in s.spent
    ensures ValidRun(s, run, k) && About(run, key)
    ensures Final(s, run, k) == s.(flight := AllCleared(n + 1, key))
  {
    var s1 := Next(s, Arrive(n, key), k);
    OneStep(s, Arrive(n, key), k);
    OneStep(s1, Check(n), k);
    RunsCompose(s, [Arrive(n, key)], [Check(n)], k);
    assert Next(s1, Check(n), k).flight == AllCleared(n + 1, key);
    run := [Arrive(n, key)] + [Check(n)];
  }

  lemma {:induction false} AllCheck<K>(s: State<K>, n: nat, k: nat, key: K) returns (run: seq<Step<K>>)
    requires s.flight == map[] && n <= k && key !in s.spent
    ensures ValidRun(s, run, k) && About(run, key)
    ensures Final(s, run, k) == s.(flight := AllCleared(n, key))
  {
    hide Next, Enabled;
    if n == 0 {
      run := [];
    } else {
      var pre := AllCheck(s, n - 1, k, key);
      var post := OneMore(Final(s, pre, k), n - 1, k, key);
      RunsCompose(s, pre, post, k);
      run := pre + post;
    }
  }

  lemma {:induction false} AllAct<K>(s: State<K>, n: nat, k: nat, key: K) returns (run: seq<Step<K>>)
    requires s.flight == AllCleared(n, key)
    ensures ValidRun(s, run, k) && About(run, key)
    ensures Times(Final(s, run, k).done, key) == Times(s.done, key) + n && Final(s, run, k).flight == map[]
    decreases n
  {
    if n == 0 {
      run := [];
    } else {
      var s1 := Next(s, Act(n - 1), k);
      assert s1.flight == AllCleared(n - 1, key);
      assert s1.done[..|s.done|] == s.done;
      OneStep(s, Act(n - 1), k);
      var rest := AllAct(s1, n - 1, k, key);
      RunsCompose(s, [Act(n - 1)], rest, k);
      run := [Act(n - 1)] + rest;
    }
  }

  /** k calls that all check before any acts have the effect k times. */
  lemma KTimesAttained<K>(s: State<K>, k: nat, key: K) returns (run: seq<Step<K>>)
    requires s.flight == map[] && key !in s.spent
    ensures ValidRun(s, run, k) && About(run, key)
    ensures Times(Final(s, run, k).done, key) == Times(s.done, key) + k
  {
    var checks := AllCheck(s, k, k, key);
    var acts := AllAct(Final(s, checks, k), k, k, key);
    RunsCompose(s, checks, acts, k);
    run := checks + acts;
  }
}
