/** What a sliding-window limiter promises, stated on the full history of admitted requests of one key.
    Times are milliseconds of a clock that never goes back. */
module SlidingWindow {

  /** An admitted request: when, the limit it was checked against, and the random suffix drawn for it. */
  datatype Admission = Admission(at: int, limit: int, nonce: int)

  /** A sorted-set member "now-random"; its score is `at`. */
  datatype Member = Member(at: int, nonce: int)

  function MemberOf(x: Admission): Member { Member(x.at, x.nonce) }

  function Members(log: seq<Admission>): set<Member> {
    set x | x in log :: MemberOf(x)
  }

  /** How often a member was drawn for the requests of a history. */
  function Occurs(log: seq<Admission>, y: Member): nat {
    if log == [] then 0
    else
      var n := |log| - 1;
      Occurs(log[..n], y) + if MemberOf(log[n]) == y then 1 else 0
  }

  ghost predicate AtMost(log: seq<Admission>, m: nat) {
    forall y :: Occurs(log, y) <= m
  }

  /** The admissions after time c. */
  function After(log: seq<Admission>, c: int): (r: seq<Admission>)
    ensures |r| <= |log|
    ensures forall x :: x in r <==> x in log && x.at > c
  {
    if log == [] then []
    else
      var n := |log| - 1;
      After(log[..n], c) + if log[n].at > c then [log[n]] else []
  }

  /** How many requests were admitted in the interval (lo, hi]. */
  function CountIn(log: seq<Admission>, lo: int, hi: int): nat {
    if log == [] then 0
    else
      var n := |log| - 1;
      CountIn(log[..n], lo, hi) + if lo < log[n].at <= hi then 1 else 0
  }

  ghost predicate Sorted(log: seq<Admission>) {
    forall i, j :: 0 <= i <= j < |log| ==> log[i].at <= log[j].at
  }

  /** A list counts every request, a sorted set counts the different members. */
  datatype Measure = EachRequest | EachMember

  function Load(how: Measure, log: seq<Admission>): nat {
    match how
    case EachRequest => |log|
    case EachMember => |Members(log)|
  }

  /** The simple limiter: it never forgets, and admits when fewer than `limit` were counted in the window
      before `now`. */
  predicate Admits(how: Measure, log: seq<Admission>, window: int, now: int, limit: int) {
    Load(how, After(log, now - window)) < limit
  }

  /** Every request of the history was admitted by the simple limiter. */
  ghost predicate Conforms(how: Measure, log: seq<Admission>, window: int) {
    Sorted(log) && forall j :: 0 <= j < |log| ==> Admits(how, log[..j], window, log[j].at, log[j].limit)
  }

  /** What a window can hold when no member is drawn more than m times. */
  function Capacity(how: Measure, m: nat, limit: int): int {
    match how
    case EachRequest => limit
    case EachMember => if limit >= 1 then m * (limit - 1) + 1 else 0
  }

  lemma {:induction false} CountAfter(log: seq<Admission>, lo: int, hi: int)
    ensures CountIn(log, lo, hi) <= |After(log, lo)|
  {
    if log != [] { CountAfter(log[..|log| - 1], lo, hi); }
  }

  lemma {:induction false} AfterShrinks(log: seq<Admission>, c: int, c': int)
    requires c <= c'
    ensures After(After(log, c), c') == After(log, c')
    ensures |After(log, c')| <= |After(log, c)|
  {
    if log != [] {
      var n := |log| - 1;
      AfterShrinks(log[..n], c, c');
      var r := After(log[..n], c);
      if log[n].at > c {
        assert (r + [log[n]])[..|r|] == r;
      } else {
        assert r + [] == r;
      }
    }
  }

  lemma AfterAppend(log: seq<Admission>, x: Admission, c: int)
    ensures After(log + [x], c) == After(log, c) + if x.at > c then [x] else []
  {
    assert (log + [x])[..|log|] == log;
  }

  lemma CountAppend(log: seq<Admission>, x: Admission, lo: int, hi: int)
    ensures CountIn(log + [x], lo, hi) == CountIn(log, lo, hi) + if lo < x.at <= hi then 1 else 0
  {
    assert (log + [x])[..|log|] == log;
  }

  lemma OccursAppend(log: seq<Admission>, x: Admission, y: Member)
    ensures Occurs(log + [x], y) == Occurs(log, y) + if MemberOf(x) == y then 1 else 0
  {
    assert (log + [x])[..|log|] == log;
  }

  lemma {:induction false} OccursAfter(log: seq<Admission>, c: int, y: Member)
    ensures Occurs(After(log, c), y) <= Occurs(log, y)
  {
    if log != [] {
      var n := |log| - 1;
      var rest := After(log[..n], c);
      OccursAfter(log[..n], c, y);
      if log[n].at > c {
        OccursAppend(rest, log[n], y);
      } else {
        assert rest + [] == rest;
      }
    }
  }

  /** The requests with another member. */
  function Others(log: seq<Admission>, y: Member): (r: seq<Admission>)
    ensures |r| + Occurs(log, y) == |log|
    ensures forall x :: x in r <==> x in log && MemberOf(x) != y
  {
    if log == [] then []
    else
      var n := |log| - 1;
      Others(log[..n], y) + if MemberOf(log[n]) != y then [log[n]] else []
  }

  lemma {:induction false} OccursOthers(log: seq<Admission>, y: Member, z: Member)
    ensures Occurs(Others(log, y), z) <= Occurs(log, z)
  {
    if log != [] {
      var n := |log| - 1;
      var rest := Others(log[..n], y);
      OccursOthers(log[..n], y, z);
      if MemberOf(log[n]) != y {
        OccursAppend(rest, log[n], z);
      } else {
        assert rest + [] == rest;
      }
    }
  }

  /** m requests to a member at most. */
  lemma {:induction false} SizeByMembers(log: seq<Admission>, m: nat)
    requires AtMost(log, m)
    ensures |log| <= m * |Members(log)|
    decreases |log|
  {
    if log == [] {
      assert Members(log) == {};
    } else {
      var y := MemberOf(log[|log| - 1]);
      var rest := Others(log, y);
      assert log[|log| - 1] in log && y in Members(log);
      assert Members(rest) == Members(log) - {y};
      forall z ensures Occurs(rest, z) <= m { OccursOthers(log, y, z); }
      assert Occurs(log, y) > 0;
      SizeByMembers(rest, m);
      Distribute(m, |Members(log)|);
    }
  }

  lemma Distribute(m: nat, n: int)
    ensures m * (n - 1) == m * n - m
  {
  }

  /** No member was drawn twice. */
  predicate Distinct(log: seq<Admission>) {
    log == [] || (MemberOf(log[|log| - 1]) !in Members(log[..|log| - 1]) && Distinct(log[..|log| - 1]))
  }

  /** Counting members is counting requests exactly when no member repeats. */
  lemma {:induction false} MembersCount(log: seq<Admission>)
    ensures |Members(log)| <= |log|
    ensures |Members(log)| == |log| <==> Distinct(log)
  {
    if log != [] {
      var rest, last := log[..|log| - 1], MemberOf(log[|log| - 1]);
      MembersCount(rest);
      assert log == rest + [log[|log| - 1]];
      assert Members(log) == Members(rest) + {last};
      if last in Members(rest) { assert Members(log) == Members(rest); }
    }
  }

  /** A request admitted by the simple limiter extends a conforming history. */
  lemma ConformsAppend(how: Measure, log: seq<Admission>, window: int, x: Admission)
    requires Conforms(how, log, window) && Admits(how, log, window, x.at, x.limit)
    requires forall i :: 0 <= i < |log| ==> log[i].at <= x.at
    ensures Conforms(how, log + [x], window)
  {
    hide Admits;
    var log' := log + [x];
    forall j | 0 <= j < |log'| ensures Admits(how, log'[..j], window, log'[j].at, log'[j].limit) {
      assert log'[..j] == log[..j];
      if j == |log| { assert log[..j] == log; }
    }
  }

  lemma ConformsPrefix(how: Measure, log: seq<Admission>, window: int, n: nat)
    requires Conforms(how, log, window) && n <= |log|
    ensures Conforms(how, log[..n], window)
  {
    hide Admits;
    forall j | 0 <= j < n ensures Admits(how, log[..n][..j], window, log[..n][j].at, log[..n][j].limit) {
      assert log[..n][..j] == log[..j];
      assert Admits(how, log[..j], window, log[j].at, log[j].limit);
    }
  }

  lemma AtMostPrefix(log: seq<Admission>, m: nat)
    requires AtMost(log, m) && log != []
    ensures AtMost(log[..|log| - 1], m)
  {
    var rest := log[..|log| - 1];
    forall y ensures Occurs(rest, y) <= m { assert Occurs(log, y) <= m; }
  }

  /** What was counted when the last request was admitted includes all others of an interval it lies in. */
  lemma LastDecides(how: Measure, log: seq<Admission>, window: int, m: nat, lo: int, last: Admission)
    requires lo < last.at <= lo + window && Admits(how, log, window, last.at, last.limit)
    requires how.EachMember? ==> AtMost(log, m)
    ensures CountIn(log, lo, lo + window) + 1 <= Capacity(how, m, last.limit)
  {
    hide After, CountIn, Occurs, Members;
    AfterShrinks(log, last.at - window, lo);
    CountAfter(log, lo, lo + window);
    var live := After(log, last.at - window);
    if how.EachMember? {
      forall y ensures Occurs(live, y) <= m { OccursAfter(log, last.at - window, y); }
      SizeByMembers(live, m);
      Monotone(m, |Members(live)|, last.limit - 1);
    }
  }

  lemma Monotone(m: nat, a: int, b: int)
    requires a <= b
    ensures m * a <= m * b
  {
  }

  /** Every interval (lo, lo + window] holds at most the capacity: `limit` requests when each is counted, and
      m * (limit - 1) + 1 when members are counted and none was drawn more than m times. */
  lemma {:induction false} WindowBound(how: Measure, log: seq<Admission>, window: int, m: nat, limit: nat, lo: int)
    requires Conforms(how, log, window)
    requires how.EachMember? ==> AtMost(log, m)
    requires forall i :: 0 <= i < |log| ==> log[i].limit <= limit
    ensures CountIn(log, lo, lo + window) <= Capacity(how, m, limit)
  {
    hide Admits, Sorted, AtMost;
    if log == [] {
      if limit >= 1 { Monotone(m, 0, limit - 1); }
    } else {
      var n := |log| - 1;
      if how.EachMember? { AtMostPrefix(log, m); }
      if lo < log[n].at <= lo + window {
        LastDecides(how, log[..n], window, m, lo, log[n]);
        if log[n].limit >= 1 { Monotone(m, log[n].limit - 1, limit - 1); }
      } else {
        ConformsPrefix(how, log, window, n);
        WindowBound(how, log[..n], window, m, limit, lo);
      }
    }
  }
}
