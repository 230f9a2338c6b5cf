/** WebSocketManager: registered connections, presence and the connection gauge, and the two broadcasts. */
module WebSocket {
  import opened Options

  class ActiveConnection {
    const user: string
    const business: string

    constructor (user: string, business: string)
      ensures this.user == user && this.business == business
    {
      this.user, this.business := user, business;
    }
  }

  datatype Presence = Presence(user: string, status: string, view: Option<string>)

  /** list.remove(c): the first occurrence goes. */
  function RemoveFirst(list: seq<ActiveConnection>, c: ActiveConnection): (r: seq<ActiveConnection>)
    ensures |r| == if c in list then |list| - 1 else |list|
    ensures forall x :: x in list && x != c ==> x in r
    ensures forall x :: x in r ==> x in list
  {
    if list == [] then [] else if list[0] == c then list[1..] else [list[0]] + RemoveFirst(list[1..], c)
  }

  function RemoveAll(list: seq<ActiveConnection>, gone: seq<ActiveConnection>): seq<ActiveConnection>
    decreases |gone|
  {
    if gone == [] then list else RemoveAll(RemoveFirst(list, gone[0]), gone[1..])
  }

  /** The connections of a list outside a set, in order. */
  function Without(list: seq<ActiveConnection>, gone: set<ActiveConnection>): seq<ActiveConnection> {
    if list == [] then []
    else if list[0] in gone then Without(list[1..], gone)
    else [list[0]] + Without(list[1..], gone)
  }

  function OfUser(list: seq<ActiveConnection>, user: string): (r: seq<ActiveConnection>)
    ensures forall c :: c in r ==> c in list && c.user == user
    ensures forall c :: c in list && c.user == user ==> c in r
  {
    if list == [] then [] else (if list[0].user == user then [list[0]] else []) + OfUser(list[1..], user)
  }

  function Within(list: seq<ActiveConnection>, some: set<ActiveConnection>): (r: seq<ActiveConnection>)
    ensures forall c :: c in r ==> c in list && c in some
    ensures forall c :: c in list && c in some ==> c in r
  {
    if list == [] then []
    else
      var n := |list| - 1;
      if list[n] in some then Within(list[..n], some) + [list[n]] else Within(list[..n], some)
  }

  /** The failed sends: every entry of `order` in `broken`, as often as it stands there and in that order. */
  lemma WithinExact(order: seq<ActiveConnection>, more: seq<ActiveConnection>, broken: set<ActiveConnection>,
                    c: ActiveConnection)
    ensures multiset(Within(order, broken))[c] == if c in broken then multiset(order)[c] else 0
    ensures Within(order + more, broken) == Within(order, broken) + Within(more, broken)
  {
    hide Within;
    WithinCount(order, broken, c);
    WithinConcat(order, more, broken);
  }

  lemma {:induction false} WithinCount(order: seq<ActiveConnection>, broken: set<ActiveConnection>, c: ActiveConnection)
    ensures multiset(Within(order, broken))[c] == if c in broken then multiset(order)[c] else 0
  {
    if order != [] {
      var n := |order| - 1;
      WithinCount(order[..n], broken, c);
      assert order == order[..n] + [order[n]];
    }
  }

  lemma {:induction false} WithinConcat(x: seq<ActiveConnection>, y: seq<ActiveConnection>, some: set<ActiveConnection>)
    ensures Within(x + y, some) == Within(x, some) + Within(y, some)
  {
    if y == [] {
      assert x + y == x;
    } else {
      var n := |y| - 1;
      assert (x + y)[..|x| + n] == x + y[..n];
      WithinConcat(x, y[..n], some);
    }
  }

  /** How many of the sends fail. */
  function Failures(order: seq<ActiveConnection>, broken: set<ActiveConnection>): nat {
    |FailedAt(order, broken)|
  }

  function FailedAt(order: seq<ActiveConnection>, broken: set<ActiveConnection>): set<nat> {
    set i: nat | i < |order| && order[i] in broken
  }

  lemma FailedAtLast(order: seq<ActiveConnection>, broken: set<ActiveConnection>)
    requires order != []
    ensures var n := |order| - 1;
            && n !in FailedAt(order[..n], broken)
            && FailedAt(order, broken) == FailedAt(order[..n], broken) + if order[n] in broken then {n} else {}
  {
  }

  lemma {:induction false} WithinSize(order: seq<ActiveConnection>, broken: set<ActiveConnection>)
    ensures |Within(order, broken)| == Failures(order, broken)
  {
    if order != [] {
      FailedAtLast(order, broken);
      hide FailedAt;
      WithinSize(order[..|order| - 1], broken);
    } else {
      assert FailedAt(order, broken) == {};
    }
  }

  /** The targets of a broadcast to a user: all connections of the user, as often as they are listed and in the
      order of the list. */
  lemma OfUserExact(list: seq<ActiveConnection>, more: seq<ActiveConnection>, user: string, c: ActiveConnection)
    ensures multiset(OfUser(list, user))[c] == if c.user == user then multiset(list)[c] else 0
    ensures OfUser(list + more, user) == OfUser(list, user) + OfUser(more, user)
  {
    hide OfUser;
    OfUserCount(list, user, c);
    OfUserConcat(list, more, user);
  }

  lemma {:induction false} OfUserCount(list: seq<ActiveConnection>, user: string, c: ActiveConnection)
    ensures multiset(OfUser(list, user))[c] == if c.user == user then multiset(list)[c] else 0
  {
    if list != [] {
      OfUserCount(list[1..], user, c);
      assert list == [list[0]] + list[1..];
    }
  }

  lemma {:induction false} OfUserConcat(list: seq<ActiveConnection>, more: seq<ActiveConnection>, user: string)
    ensures OfUser(list + more, user) == OfUser(list, user) + OfUser(more, user)
  {
    if list == [] {
      assert list + more == more;
    } else {
      assert (list + more)[1..] == list[1..] + more;
      OfUserConcat(list[1..], more, user);
    }
  }

  /** list.remove takes the first occurrence and nothing else. */
  lemma {:induction false} RemovesTheFirst(x: seq<ActiveConnection>, c: ActiveConnection, y: seq<ActiveConnection>)
    requires c !in x
    ensures RemoveFirst(x + [c] + y, c) == x + y
  {
    if x == [] {
      assert x + [c] + y == [c] + y;
      assert x + y == y;
    } else {
      assert (x + [c] + y)[1..] == x[1..] + [c] + y;
      RemovesTheFirst(x[1..], c, y);
      assert x + y == [x[0]] + (x[1..] + y);
    }
  }

  function Users(list: seq<ActiveConnection>): set<string> { set c | c in list :: c.user }

  ghost predicate Seen(list: seq<ActiveConnection>, u: string) {
    exists c :: c in list && c.user == u
  }

  /** Everybody present has a connection in the list. */
  ghost predicate Backed(presence: map<string, Presence>, list: seq<ActiveConnection>) {
    forall u :: u in presence ==> presence[u].user == u && Seen(list, u)
  }

  /** The gauge counts the registered connections less the stray disconnects, and whoever is present has a
      registered connection. */
  ghost predicate BusinessOk(b: string, list: seq<ActiveConnection>, presence: map<string, Presence>, gauge: int,
      stray: nat)
  {
    gauge == |list| - stray && (forall c :: c in list ==> c.business == b) && Backed(presence, list)
  }

  lemma ConnectOk(c: ActiveConnection, list: seq<ActiveConnection>, presence: map<string, Presence>, gauge: int,
      stray: nat)
    requires BusinessOk(c.business, list, presence, gauge, stray)
    ensures BusinessOk(c.business, list + [c], presence[c.user := Presence(c.user, "online", None)], gauge + 1, stray)
  {
    var list' := list + [c];
    assert c in list';
    forall u | u in presence ensures Seen(list', u) {
      var x :| x in list && x.user == u;
      assert x in list';
    }
  }

  lemma DisconnectOk(c: ActiveConnection, list: seq<ActiveConnection>, presence: map<string, Presence>, gauge: int,
      stray: nat)
    requires BusinessOk(c.business, list, presence, gauge, stray)
    ensures BusinessOk(c.business, RemoveFirst(list, c), presence - {c.user}, gauge - 1,
                       if c in list then stray else stray + 1)
  {
    forall u | u in presence && u != c.user ensures Seen(RemoveFirst(list, c), u) {
      var x :| x in list && x.user == u;
      assert x in RemoveFirst(list, c);
    }
  }

  function Elements(list: seq<ActiveConnection>): set<ActiveConnection> { set c | c in list }

  ghost predicate Distinct(list: seq<ActiveConnection>) {
    list == [] || (list[0] !in list[1..] && Distinct(list[1..]))
  }

  lemma {:induction false} RemoveOne(list: seq<ActiveConnection>, c: ActiveConnection, gone: set<ActiveConnection>)
    requires Distinct(list)
    ensures Without(RemoveFirst(list, c), gone) == Without(list, gone + {c})
    ensures Distinct(RemoveFirst(list, c))
  {
    if list != [] {
      var rest := list[1..];
      if list[0] == c {
        NothingGone(rest, gone, c);
      } else {
        RemoveOne(rest, c, gone);
        assert RemoveFirst(list, c)[1..] == RemoveFirst(rest, c);
      }
    }
  }

  lemma {:induction false} NothingGone(list: seq<ActiveConnection>, gone: set<ActiveConnection>, c: ActiveConnection)
    requires c !in list
    ensures Without(list, gone + {c}) == Without(list, gone)
  {
    if list != [] { NothingGone(list[1..], gone, c); }
  }

  lemma {:induction false} WithoutNone(list: seq<ActiveConnection>)
    ensures Without(list, {}) == list
  {
    if list != [] { WithoutNone(list[1..]); }
  }

  /** Disconnecting a list of connections, in any order and with repetitions, leaves exactly the others in
      their original order. */
  lemma {:induction false} CleanupExact(list: seq<ActiveConnection>, gone: seq<ActiveConnection>)
    requires Distinct(list)
    ensures RemoveAll(list, gone) == Without(list, Elements(gone))
    decreases |gone|
  {
    if gone == [] {
      WithoutNone(list);
      assert Elements(gone) == {};
    } else {
      RemoveOne(list, gone[0], Elements(gone[1..]));
      CleanupExact(RemoveFirst(list, gone[0]), gone[1..]);
      assert Elements(gone) == Elements(gone[1..]) + {gone[0]};
    }
  }

  lemma {:induction false} WithoutMembers(list: seq<ActiveConnection>, gone: set<ActiveConnection>, c: ActiveConnection)
    ensures c in Without(list, gone) <==> c in list && c !in gone
  {
    if list != [] { WithoutMembers(list[1..], gone, c); }
  }

  lemma {:induction false} DistinctParts(a: seq<ActiveConnection>, b: seq<ActiveConnection>)
    ensures Distinct(a + b) <==> Distinct(a) && Distinct(b) && forall c :: c in a ==> c !in b
  {
    if a == [] {
      assert a + b == b;
    } else {
      assert (a + b)[1..] == a[1..] + b;
      DistinctParts(a[1..], b);
    }
  }

  lemma {:induction false} WithoutDistinct(list: seq<ActiveConnection>, gone: set<ActiveConnection>)
    requires Distinct(list)
    ensures Distinct(Without(list, gone)) && forall c :: c in Without(list, gone) ==> c in list
  {
    if list != [] {
      WithoutDistinct(list[1..], gone);
      if list[0] !in gone { assert Without(list, gone)[1..] == Without(list[1..], gone); }
    }
  }

  /** Exactly the connections outside the set stay, as often as they were there and in their order. */
  lemma WithoutExact(list: seq<ActiveConnection>, more: seq<ActiveConnection>, gone: set<ActiveConnection>,
                     c: ActiveConnection)
    ensures multiset(Without(list, gone))[c] == if c in gone then 0 else multiset(list)[c]
    ensures Without(list + more, gone) == Without(list, gone) + Without(more, gone)
  {
    hide Without;
    WithoutCount(list, gone, c);
    WithoutConcat(list, more, gone);
  }

  lemma {:induction false} WithoutCount(list: seq<ActiveConnection>, gone: set<ActiveConnection>, c: ActiveConnection)
    ensures multiset(Without(list, gone))[c] == if c in gone then 0 else multiset(list)[c]
  {
    if list != [] {
      WithoutCount(list[1..], gone, c);
      assert list == [list[0]] + list[1..];
    }
  }

  lemma {:induction false} WithoutConcat(list: seq<ActiveConnection>, more: seq<ActiveConnection>,
                                         gone: set<ActiveConnection>)
    ensures Without(list + more, gone) == Without(list, gone) + Without(more, gone)
  {
    if list == [] {
      assert list + more == more;
    } else {
      assert (list + more)[1..] == list[1..] + more;
      WithoutConcat(list[1..], more, gone);
    }
  }

  lemma {:induction false} DistinctIff(list: seq<ActiveConnection>)
    ensures Distinct(list) <==> forall c :: multiset(list)[c] <= 1
  {
    if list != [] {
      var rest := list[1..];
      DistinctIff(rest);
      assert list == [list[0]] + rest;
      if list[0] in rest {
        assert list[0] in multiset(rest);
        assert multiset(list)[list[0]] >= 2;
      }
      if !Distinct(rest) {
        var c :| multiset(rest)[c] > 1;
        assert multiset(list)[c] > 1;
      }
    }
  }

  /** Different registered connections leave one by one. */
  lemma {:induction false} RemoveAllSize(list: seq<ActiveConnection>, gone: seq<ActiveConnection>)
    requires Distinct(list) && Distinct(gone) && forall c :: c in gone ==> c in list
    ensures |RemoveAll(list, gone)| == |list| - |gone|
    decreases |gone|
  {
    if gone != [] {
      RemoveOne(list, gone[0], {});
      RemoveAllSize(RemoveFirst(list, gone[0]), gone[1..]);
    }
  }

  /** The failed sends of a broadcast to different connections are different registered connections. */
  lemma FailedOnce(list: seq<ActiveConnection>, targets: seq<ActiveConnection>, order: seq<ActiveConnection>,
                   broken: set<ActiveConnection>)
    requires Distinct(list) && multiset(order) == multiset(targets)
    requires forall c :: multiset(targets)[c] <= multiset(list)[c]
    ensures |RemoveAll(list, Within(order, broken))| == |list| - |Within(order, broken)|
  {
    var failed := Within(order, broken);
    DistinctIff(list);
    forall c ensures multiset(failed)[c] <= multiset(list)[c] <= 1 {
      WithinExact(order, [], broken, c);
      assert multiset(order)[c] <= multiset(list)[c];
    }
    DistinctIff(failed);
    forall c | c in failed ensures c in list {
      assert c in multiset(failed);
      assert c in multiset(list);
    }
    RemoveAllSize(list, failed);
  }

  // ---- Overlapping broadcasts ----

  /** A connect or disconnect call on one business; a broadcast's cleanup is a run of disconnect calls. */
  datatype Event = Joined(c: ActiveConnection) | Left(c: ActiveConnection)

  function Replay(list: seq<ActiveConnection>, events: seq<Event>): seq<ActiveConnection>
    decreases |events|
  {
    if events == [] then list
    else Replay(match events[0] case Joined(c) => list + [c] case Left(c) => RemoveFirst(list, c), events[1..])
  }

  function Joins(events: seq<Event>): seq<ActiveConnection> {
    if events == [] then []
    else (match events[0] case Joined(c) => [c] case Left(_) => []) + Joins(events[1..])
  }

  function Leaves(gone: seq<ActiveConnection>): seq<Event> {
    seq(|gone|, i requires 0 <= i < |gone| => Left(gone[i]))
  }

  lemma {:induction false} LeavesReplay(list: seq<ActiveConnection>, gone: seq<ActiveConnection>)
    ensures Replay(list, Leaves(gone)) == RemoveAll(list, gone) && Joins(Leaves(gone)) == []
    decreases |gone|
  {
    if gone != [] {
      assert Leaves(gone)[1..] == Leaves(gone[1..]);
      LeavesReplay(RemoveFirst(list, gone[0]), gone[1..]);
    }
  }

  lemma {:induction false} JoinsConcat(x: seq<Event>, y: seq<Event>)
    ensures Joins(x + y) == Joins(x) + Joins(y)
  {
    if x == [] {
      assert x + y == y;
    } else {
      assert (x + y)[0] == x[0] && (x + y)[1..] == x[1..] + y;
      JoinsConcat(x[1..], y);
    }
  }

  lemma RemovedOnce(list: seq<ActiveConnection>, c: ActiveConnection, later: seq<ActiveConnection>)
    requires Distinct(list + later)
    ensures c !in RemoveFirst(list, c) && Distinct(RemoveFirst(list, c) + later)
  {
    DistinctParts(list, later);
    RemoveOne(list, c, {});
    WithoutNone(RemoveFirst(list, c));
    WithoutMembers(list, {} + {c}, c);
    DistinctParts(RemoveFirst(list, c), later);
  }

  lemma {:induction false} GoneStaysGone(list: seq<ActiveConnection>, events: seq<Event>, c: ActiveConnection)
    requires c !in list && c !in Joins(events)
    ensures c !in Replay(list, events)
    decreases |events|
  {
    if events != [] {
      match events[0]
      case Joined(d) => GoneStaysGone(list + [d], events[1..], c);
      case Left(d) => GoneStaysGone(RemoveFirst(list, d), events[1..], c);
    }
  }

  /** When no connection object is registered twice, a registered connection remains after any calls if and
      only if it was not disconnected. */
  lemma {:induction false} Survives(list: seq<ActiveConnection>, events: seq<Event>, c: ActiveConnection)
    requires Distinct(list + Joins(events)) && c in list
    ensures c in Replay(list, events) <==> Left(c) !in events
    decreases |events|
  {
    if events != [] {
      var rest := events[1..];
      assert forall e :: e in events <==> e == events[0] || e in rest;
      match events[0]
      case Joined(d) =>
        assert list + ([d] + Joins(rest)) == (list + [d]) + Joins(rest);
        Survives(list + [d], rest, c);
      case Left(d) =>
        assert [] + Joins(rest) == Joins(rest);
        DistinctParts(list, Joins(rest));
        RemovedOnce(list, d, Joins(rest));
        if d == c {
          GoneStaysGone(RemoveFirst(list, c), rest, c);
        } else {
          Survives(RemoveFirst(list, d), rest, c);
        }
    }
  }

  /** The calls on a business from the moment the second of two overlapping broadcasts takes its targets:
      connects and disconnects of anybody, with the two cleanups among them in either order. */
  function Overlap(x: seq<Event>, a: seq<ActiveConnection>, y: seq<Event>, b: seq<ActiveConnection>, z: seq<Event>,
                   aFirst: bool): seq<Event> {
    x + Leaves(if aFirst then a else b) + y + Leaves(if aFirst then b else a) + z
  }

  /** Whatever connects and disconnects during two overlapping broadcasts, a connection registered when the
      second one starts remains after both cleanups if and only if nobody disconnected it and no send to it
      failed in either. `list` are the connections registered then; the orders are those in which the sends
      of the two broadcasts end. */
  lemma OverlappingBroadcasts(list: seq<ActiveConnection>, x: seq<Event>, y: seq<Event>, z: seq<Event>, aFirst: bool,
                              orderA: seq<ActiveConnection>, brokenA: set<ActiveConnection>,
                              orderB: seq<ActiveConnection>, brokenB: set<ActiveConnection>, c: ActiveConnection)
    requires Distinct(list + Joins(x + y + z)) && c in list
    ensures var events := Overlap(x, Within(orderA, brokenA), y, Within(orderB, brokenB), z, aFirst);
            c in Replay(list, events) <==>
              Left(c) !in x + y + z && !(c in orderA && c in brokenA) && !(c in orderB && c in brokenB)
  {
    var a, b := Within(orderA, brokenA), Within(orderB, brokenB);
    var events := Overlap(x, a, y, b, z, aFirst);
    OverlapJoins(x, a, y, b, z, aFirst);
    LeftIn(a, c);
    LeftIn(b, c);
    Survives(list, events, c);
  }

  lemma OverlapJoins(x: seq<Event>, a: seq<ActiveConnection>, y: seq<Event>, b: seq<ActiveConnection>, z: seq<Event>,
                     aFirst: bool)
    ensures Joins(Overlap(x, a, y, b, z, aFirst)) == Joins(x + y + z)
  {
    hide Joins, Replay;
    var f, g := if aFirst then a else b, if aFirst then b else a;
    NoJoins(x, f);
    JoinsConcat(x + Leaves(f), y);
    NoJoins(x + Leaves(f) + y, g);
    JoinsConcat(x + Leaves(f) + y + Leaves(g), z);
    JoinsConcat(x, y);
    JoinsConcat(x + y, z);
  }

  lemma NoJoins(x: seq<Event>, gone: seq<ActiveConnection>)
    ensures Joins(x + Leaves(gone)) == Joins(x)
  {
    LeavesReplay([], gone);
    JoinsConcat(x, Leaves(gone));
    assert Joins(x) + [] == Joins(x);
  }

  lemma LeftIn(gone: seq<ActiveConnection>, c: ActiveConnection)
    ensures Left(c) in Leaves(gone) <==> c in gone
  {
    if c in gone {
      var i :| 0 <= i < |gone| && gone[i] == c;
      assert Leaves(gone)[i] == Left(c);
    }
  }

  class WebSocketManager {
    var connections: map<string, seq<ActiveConnection>>
    var presence: map<string, map<string, Presence>>
    var gauge: map<string, int>
    ghost var stray: map<string, nat>  // disconnect calls on connections that were not registered

    function Connections(b: string): seq<ActiveConnection>
      reads this`connections
    {
      if b in connections then connections[b] else []
    }

    function PresenceOf(b: string): map<string, Presence>
      reads this`presence
    {
      if b in presence then presence[b] else map[]
    }

    function Gauge(b: string): int
      reads this`gauge
    {
      if b in gauge then gauge[b] else 0
    }

    ghost function Stray(b: string): nat
      reads this`stray
    {
      if b in stray then stray[b] else 0
    }

    /** What a business sees of the manager. */
    function View(b: string): (seq<ActiveConnection>, map<string, Presence>, int)
      reads this`connections, this`presence, this`gauge
    {
      (Connections(b), PresenceOf(b), Gauge(b))
    }

    ghost predicate ValidAt(b: string)
      reads this
    {
      BusinessOk(b, Connections(b), PresenceOf(b), Gauge(b), Stray(b))
    }

    ghost predicate Valid()
      reads this
    {
      forall b :: ValidAt(b)
    }

    constructor ()
      ensures Valid() && connections == map[] && presence == map[] && gauge == map[]
    {
      connections, presence, gauge, stray := map[], map[], map[], map[];
    }

    method Connect(c: ActiveConnection)
      requires Valid()
      modifies this
      ensures Valid()
      ensures connections == old(connections)[c.business := old(Connections(c.business)) + [c]]
      ensures var online := Presence(c.user, "online", None);
              presence == old(presence)[c.business := old(PresenceOf(c.business))[c.user := online]]
      ensures gauge == old(gauge)[c.business := old(Gauge(c.business)) + 1] && stray == old(stray)
    {
      hide BusinessOk;
      var b, u := c.business, c.user;
      assert ValidAt(b);
      ConnectOk(c, Connections(b), PresenceOf(b), Gauge(b), Stray(b));
      connections := connections[b := Connections(b) + [c]];
      presence := presence[b := PresenceOf(b)[u := Presence(u, "online", None)]];
      gauge := gauge[b := Gauge(b) + 1];
      forall x ensures ValidAt(x) {
        assert old(ValidAt(x));
      }
    }

    /** The user's presence and one unit of the gauge go even when the connection is not registered. */
    method Disconnect(c: ActiveConnection)
      requires Valid()
      modifies this
      ensures Valid()
      ensures var b := c.business;
              && Connections(b) == RemoveFirst(old(Connections(b)), c)
              && PresenceOf(b) == old(PresenceOf(b)) - {c.user}
              && Gauge(b) == old(Gauge(b)) - 1
      ensures forall x :: x != c.business ==> View(x) == old(View(x))
      ensures forall x :: Stray(x) == old(Stray(x)) + if x == c.business && c !in old(Connections(x)) then 1 else 0
    {
      hide BusinessOk, RemoveFirst;
      var b, u := c.business, c.user;
      assert ValidAt(b);
      DisconnectOk(c, Connections(b), PresenceOf(b), Gauge(b), Stray(b));
      ghost var registered := c in Connections(b);
      if c in Connections(b) {
        connections := connections[b := RemoveFirst(Connections(b), c)];
      } else {
        Absent(Connections(b), c);
      }
      if u in PresenceOf(b) {
        presence := presence[b := PresenceOf(b) - {u}];
      }
      assert Connections(b) == RemoveFirst(old(Connections(b)), c) && PresenceOf(b) == old(PresenceOf(b)) - {u};
      gauge := gauge[b := Gauge(b) - 1];
      stray := stray[b := Stray(b) + if registered then 0 else 1];
      forall x | x != b
        ensures ValidAt(x) && View(x) == old(View(x)) && Stray(x) == old(Stray(x))
      {
        assert old(ValidAt(x));
      }
      assert ValidAt(b);
    }

    method UpdatePresence(b: string, u: string, status: string, view: Option<string>)
      requires Valid()
      modifies this`presence
      ensures Valid()
      ensures PresenceOf(b) == if u in old(PresenceOf(b)) then old(PresenceOf(b))[u := Presence(u, status, view)]
          else old(PresenceOf(b))
      ensures forall x :: x != b ==> PresenceOf(x) == old(PresenceOf(x))
    {
      if u in PresenceOf(b) {
        presence := presence[b := PresenceOf(b)[u := PresenceOf(b)[u].(status := status, view := view)]];
      }
      assert old(ValidAt(b));
      forall x ensures ValidAt(x) {
        assert old(ValidAt(x));
      }
    }

    /** The users listed as present are those with presence, each with a registered connection. */
    method GetPresence(b: string) returns (details: set<Presence>)
      requires Valid()
      ensures forall p :: p in details <==> p.user in PresenceOf(b) && PresenceOf(b)[p.user] == p
      ensures forall p :: p in details ==> exists c :: c in Connections(b) && c.user == p.user
    {
      details := PresenceOf(b).Values;
      assert ValidAt(b);
      forall p | p in details ensures p.user in PresenceOf(b) && PresenceOf(b)[p.user] == p {
        var u :| u in PresenceOf(b) && PresenceOf(b)[u] == p;
      }
    }

    /** The cleanup loop after a broadcast to business b. */
    method Cleanup(b: string, failed: seq<ActiveConnection>)
      requires Valid() && forall c :: c in failed ==> c.business == b
      modifies this
      ensures Valid()
      ensures Connections(b) == RemoveAll(old(Connections(b)), failed)
      ensures PresenceOf(b) == old(PresenceOf(b)) - Users(failed)
      ensures Gauge(b) == old(Gauge(b)) - |failed|
      ensures forall x :: x != b ==> View(x) == old(View(x))
    {
      hide ValidAt, RemoveAll, Users;
      assert failed[0..] == failed && failed[..0] == [];
      NoUsers();
      for i := 0 to |failed|
        invariant Valid()
        invariant RemoveAll(Connections(b), failed[i..]) == RemoveAll(old(Connections(b)), failed)
        invariant PresenceOf(b) == old(PresenceOf(b)) - Users(failed[..i])
        invariant Gauge(b) == old(Gauge(b)) - i
        invariant forall x :: x != b ==> View(x) == old(View(x))
      {
        NextGone(Connections(b), failed, i);
        Disconnect(failed[i]);
      }
      Done(Connections(b), failed);
      assert failed[..|failed|] == failed;
    }

    /** A broadcast from the end of its sends on, whatever was connected or disconnected meanwhile: `order` are
        the connections that were addressed, in the order in which their sends end, and `broken` those whose
        send fails. */
    method FinishBroadcast(b: string, order: seq<ActiveConnection>, broken: set<ActiveConnection>)
      requires Valid() && forall c :: c in order ==> c.business == b
      modifies this
      ensures Valid()
      ensures Connections(b) == Replay(old(Connections(b)), Leaves(Within(order, broken)))
      ensures Distinct(old(Connections(b))) ==>
                Connections(b) == Without(old(Connections(b)), Elements(Within(order, broken)))
      ensures PresenceOf(b) == old(PresenceOf(b)) - Users(Within(order, broken))
      ensures Gauge(b) == old(Gauge(b)) - Failures(order, broken)
      ensures forall x :: x != b ==> View(x) == old(View(x))
    {
      ghost var before := Connections(b);
      var disconnected := Collect(order, broken);
      Cleanup(b, disconnected);
      LeavesReplay(before, disconnected);
      WithinSize(order, broken);
      if Distinct(before) { CleanupExact(before, disconnected); }
    }

    /** A broadcast to the whole business during whose sends nothing else happens. */
    method BroadcastToBusiness(b: string, broken: set<ActiveConnection>, order: seq<ActiveConnection>)
      returns (addressed: seq<ActiveConnection>)
      requires Valid() && multiset(order) == multiset(Connections(b))
      modifies this
      ensures Valid() && addressed == old(Connections(b))
      ensures Distinct(old(Connections(b))) ==> Connections(b) == Without(old(Connections(b)), broken)
      ensures PresenceOf(b) == old(PresenceOf(b)) - Users(Within(addressed, broken))
      ensures Gauge(b) == old(Gauge(b)) - Failures(order, broken)
      ensures Distinct(old(Connections(b))) ==>
                Stray(b) == old(Stray(b)) && Gauge(b) - |Connections(b)| == old(Gauge(b) - |Connections(b)|)
      ensures forall x :: x != b ==> View(x) == old(View(x))
    {
      addressed := Connections(b);
      assert ValidAt(b);
      SameElements(order, addressed);
      if addressed == [] {
        WithoutNone([]);
        assert order == [];
        return;
      }
      FinishBroadcast(b, order, broken);
      assert ValidAt(b);
      LeavesReplay(addressed, Within(order, broken));
      WithinSize(order, broken);
      if Distinct(addressed) {
        FailedOnce(addressed, addressed, order, broken);
        WithoutSame(addressed, Elements(Within(order, broken)), broken);
      }
      assert Users(Within(order, broken)) == Users(Within(addressed, broken));
    }

    /** A broadcast to one user's connections in a business, likewise. */
    method BroadcastToUser(b: string, u: string, broken: set<ActiveConnection>, order: seq<ActiveConnection>)
      returns (addressed: seq<ActiveConnection>)
      requires Valid() && multiset(order) == multiset(OfUser(Connections(b), u))
      modifies this
      ensures Valid() && addressed == OfUser(old(Connections(b)), u)
      ensures Distinct(old(Connections(b))) ==>
                Connections(b) == Without(old(Connections(b)), set c | c in addressed && c in broken)
      ensures PresenceOf(b) == old(PresenceOf(b)) - Users(Within(addressed, broken))
      ensures Gauge(b) == old(Gauge(b)) - Failures(order, broken)
      ensures Distinct(old(Connections(b))) ==>
                Stray(b) == old(Stray(b)) && Gauge(b) - |Connections(b)| == old(Gauge(b) - |Connections(b)|)
      ensures forall x :: x != b ==> View(x) == old(View(x))
    {
      hide RemoveAll, Replay, Leaves, FailedAt, Distinct, Without;
      ghost var before := Connections(b);
      addressed := OfUser(Connections(b), u);
      assert ValidAt(b);
      SameElements(order, addressed);
      if addressed == [] {
        assert (set c | c in addressed && c in broken) == {};
        WithoutNone(before);
        assert order == [];
        WithinSize(order, broken);
        return;
      }
      FinishBroadcast(b, order, broken);
      assert ValidAt(b);
      LeavesReplay(before, Within(order, broken));
      WithinSize(order, broken);
      if Distinct(before) {
        forall c ensures multiset(addressed)[c] <= multiset(before)[c] { OfUserExact(before, [], u, c); }
        FailedOnce(before, addressed, order, broken);
      }
      assert Elements(Within(order, broken)) == (set c | c in addressed && c in broken);
      assert Users(Within(order, broken)) == Users(Within(addressed, broken));
    }

    /** The sends of a broadcast, each adding its connection to `disconnected` when it fails. */
    method Collect(order: seq<ActiveConnection>, broken: set<ActiveConnection>)
        returns (disconnected: seq<ActiveConnection>)
      ensures disconnected == Within(order, broken)
      ensures forall c :: multiset(disconnected)[c] == if c in broken then multiset(order)[c] else 0
    {
      disconnected := [];
      for i := 0 to |order|
        invariant disconnected == Within(order[..i], broken)
      {
        assert order[..i + 1][..i] == order[..i];
        if order[i] in broken {
          disconnected := disconnected + [order[i]];
        }
      }
      assert order[..|order|] == order;
      forall c { WithinExact(order, [], broken, c); }
    }
  }

  lemma NextGone(list: seq<ActiveConnection>, gone: seq<ActiveConnection>, i: nat)
    requires i < |gone|
    ensures RemoveAll(list, gone[i..]) == RemoveAll(RemoveFirst(list, gone[i]), gone[i + 1..])
    ensures Users(gone[..i + 1]) == Users(gone[..i]) + {gone[i].user} && gone[i] in gone
  {
    assert gone[i..][0] == gone[i] && gone[i..][1..] == gone[i + 1..];
    assert gone[..i + 1] == gone[..i] + [gone[i]];
  }

  lemma NoUsers()
    ensures Users([]) == {}
  {
  }

  lemma Done(list: seq<ActiveConnection>, gone: seq<ActiveConnection>)
    ensures RemoveAll(list, gone[|gone|..]) == list
  {
  }

  lemma {:induction false} Absent(list: seq<ActiveConnection>, c: ActiveConnection)
    requires c !in list
    ensures RemoveFirst(list, c) == list
  {
    if list != [] { Absent(list[1..], c); }
  }

  lemma SameElements(a: seq<ActiveConnection>, b: seq<ActiveConnection>)
    requires multiset(a) == multiset(b)
    ensures forall c :: c in a <==> c in b
  {
    forall c ensures c in a <==> c in b {
      assert c in multiset(a) <==> c in multiset(b);
    }
  }

  lemma {:induction false} WithoutSame(list: seq<ActiveConnection>, x: set<ActiveConnection>, y: set<ActiveConnection>)
    requires forall c :: c in list ==> (c in x <==> c in y)
    ensures Without(list, x) == Without(list, y)
  {
    if list != [] { WithoutSame(list[1..], x, y); }
  }
}
