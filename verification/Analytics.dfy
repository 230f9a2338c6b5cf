/** The reports of AnalyticsService over the orders and payments of one database. A UTC day is numbered by its
    distance from the day of instant 0; instants are microseconds. */
module Analytics {
  import opened Calendar
  import opened Payments

  /** One row of the grouped revenue query. */
  datatype Row = Row(date: int, amount: int)

  datatype Entry = Entry(date: int, revenue: int)

  function Day(t: int): int { t / DAY }

  predicate Matches(orders: seq<Order>, p: Payment, b: string, cutoff: int) {
    Earns(orders, p, b) && p.createdAt >= cutoff
  }

  /** SUM(amount) of one group: the matching payments of day d. */
  function GroupSum(orders: seq<Order>, payments: seq<Payment>, b: string, cutoff: int, d: int): int {
    if payments == [] then 0
    else
      var p := payments[|payments| - 1];
      GroupSum(orders, payments[..|payments| - 1], b, cutoff, d)
      + if Matches(orders, p, b, cutoff) && Day(p.createdAt) == d then p.amount else 0
  }

  ghost predicate Ascends(rows: seq<Row>) {
    forall i, j :: 0 <= i < j < |rows| ==> rows[i].date < rows[j].date
  }

  /** An amount entered into its group, which is made where it is missing; the groups stay in date order. */
  function AddTo(rows: seq<Row>, d: int, amount: int): seq<Row> {
    if rows == [] || d < rows[0].date then [Row(d, amount)] + rows
    else if rows[0].date == d then [Row(d, rows[0].amount + amount)] + rows[1..]
    else [rows[0]] + AddTo(rows[1..], d, amount)
  }

  /** The grouped query: SUM(amount) of the matching payments by day, ordered by day. */
  function GroupByDay(orders: seq<Order>, payments: seq<Payment>, b: string, cutoff: int): seq<Row> {
    if payments == [] then []
    else
      var p := payments[|payments| - 1];
      var rows := GroupByDay(orders, payments[..|payments| - 1], b, cutoff);
      if Matches(orders, p, b, cutoff) then AddTo(rows, Day(p.createdAt), p.amount) else rows
  }

  ghost predicate HasDate(rows: seq<Row>, d: int) {
    exists i :: 0 <= i < |rows| && rows[i].date == d
  }

  /** The amount of a day's row, 0 without one. */
  function AmountOf(rows: seq<Row>, d: int): int {
    if rows == [] then 0 else if rows[0].date == d then rows[0].amount else AmountOf(rows[1..], d)
  }

  lemma {:induction false} AmountAt(rows: seq<Row>, i: nat)
    requires Ascends(rows) && i < |rows|
    ensures AmountOf(rows, rows[i].date) == rows[i].amount
  {
    if i > 0 { AmountAt(rows[1..], i - 1); }
  }

  lemma {:induction false} NoAmount(rows: seq<Row>, d: int)
    requires !HasDate(rows, d)
    ensures AmountOf(rows, d) == 0
  {
    if rows != [] {
      assert rows == [rows[0]] + rows[1..];
      HasDateCons(rows[0], rows[1..], d);
      NoAmount(rows[1..], d);
    }
  }

  lemma {:induction false} AddToKeeps(rows: seq<Row>, d: int, amount: int)
    requires Ascends(rows)
    ensures Ascends(AddTo(rows, d, amount)) && AddTo(rows, d, amount) != []
    ensures AddTo(rows, d, amount)[0].date == if rows == [] || d < rows[0].date then d else rows[0].date
  {
    if rows != [] && rows[0].date < d { AddToKeeps(rows[1..], d, amount); }
  }

  lemma {:induction false} AddToAmount(rows: seq<Row>, d: int, amount: int, x: int)
    requires Ascends(rows)
    ensures AmountOf(AddTo(rows, d, amount), x) == AmountOf(rows, x) + if x == d then amount else 0
  {
    if rows == [] {
    } else if d < rows[0].date {
      if HasDate(rows, d) { assert false; }
      NoAmount(rows, d);
      assert ([Row(d, amount)] + rows)[1..] == rows;
    } else if rows[0].date == d {
      assert ([Row(d, rows[0].amount + amount)] + rows[1..])[1..] == rows[1..];
    } else {
      AddToAmount(rows[1..], d, amount, x);
      assert ([rows[0]] + AddTo(rows[1..], d, amount))[1..] == AddTo(rows[1..], d, amount);
    }
  }

  /** The rows are in date order, and each day's amount is the sum of its group. */
  lemma {:induction false} GroupByDaySums(orders: seq<Order>, payments: seq<Payment>, b: string, cutoff: int, d: int)
    ensures Ascends(GroupByDay(orders, payments, b, cutoff))
    ensures AmountOf(GroupByDay(orders, payments, b, cutoff), d) == GroupSum(orders, payments, b, cutoff, d)
  {
    if payments != [] {
      var p := payments[|payments| - 1];
      var rows := GroupByDay(orders, payments[..|payments| - 1], b, cutoff);
      GroupByDaySums(orders, payments[..|payments| - 1], b, cutoff, d);
      AddToKeeps(rows, Day(p.createdAt), p.amount);
      AddToAmount(rows, Day(p.createdAt), p.amount, d);
    }
  }

  predicate OnDay(orders: seq<Order>, payments: seq<Payment>, b: string, cutoff: int, d: int) {
    exists k :: 0 <= k < |payments| && Matches(orders, payments[k], b, cutoff) && Day(payments[k].createdAt) == d
  }

  /** There is a row for exactly the days with a matching payment. */
  lemma {:induction false} GroupByDayDates(orders: seq<Order>, payments: seq<Payment>, b: string, cutoff: int, d: int)
    ensures HasDate(GroupByDay(orders, payments, b, cutoff), d) <==> OnDay(orders, payments, b, cutoff, d)
  {
    if payments != [] {
      var n := |payments| - 1;
      var p := payments[n];
      GroupByDayDates(orders, payments[..n], b, cutoff, d);
      DatesAdded(GroupByDay(orders, payments[..n], b, cutoff), Day(p.createdAt), p.amount, d);
      if OnDay(orders, payments[..n], b, cutoff, d) {
        var k :| 0 <= k < n && Matches(orders, payments[..n][k], b, cutoff) && Day(payments[..n][k].createdAt) == d;
        assert Matches(orders, payments[k], b, cutoff) && Day(payments[k].createdAt) == d;
      }
      if OnDay(orders, payments, b, cutoff, d) {
        var k :| 0 <= k <= n && Matches(orders, payments[k], b, cutoff) && Day(payments[k].createdAt) == d;
        if k < n { assert payments[..n][k] == payments[k]; }
      }
    }
  }

  lemma {:induction false} DatesAdded(rows: seq<Row>, d: int, amount: int, x: int)
    ensures HasDate(AddTo(rows, d, amount), x) <==> HasDate(rows, x) || x == d
  {
    if rows == [] || d < rows[0].date {
      HasDateCons(Row(d, amount), rows, x);
    } else if rows[0].date == d {
      HasDateCons(Row(d, rows[0].amount + amount), rows[1..], x);
      HasDateCons(rows[0], rows[1..], x);
      assert rows == [rows[0]] + rows[1..];
    } else {
      DatesAdded(rows[1..], d, amount, x);
      HasDateCons(rows[0], rows[1..], x);
      HasDateCons(rows[0], AddTo(rows[1..], d, amount), x);
      assert rows == [rows[0]] + rows[1..];
    }
  }

  lemma HasDateCons(r: Row, rows: seq<Row>, x: int)
    ensures HasDate([r] + rows, x) <==> r.date == x || HasDate(rows, x)
  {
    var all := [r] + rows;
    if HasDate(rows, x) {
      var i :| 0 <= i < |rows| && rows[i].date == x;
      assert all[i + 1].date == x;
    }
    if r.date == x { assert all[0].date == x; }
  }

  /** The direct sum the report is held against: successful payments of the business made in [from, until). */
  function RevenueIn(orders: seq<Order>, payments: seq<Payment>, b: string, from: int, until: int): int {
    if payments == [] then 0
    else
      var p := payments[|payments| - 1];
      RevenueIn(orders, payments[..|payments| - 1], b, from, until)
      + if Earns(orders, p, b) && from <= p.createdAt < until then p.amount else 0
  }

  /** Revenue adds up over the payments, and a single payment counts in full exactly when it is successful, its
      order is the business's and it was made in the interval. */
  lemma {:induction false} RevenueInIsASum(orders: seq<Order>, payments: seq<Payment>, more: seq<Payment>, p: Payment,
                                           b: string, from: int, until: int)
    ensures RevenueIn(orders, payments + more, b, from, until)
         == RevenueIn(orders, payments, b, from, until) + RevenueIn(orders, more, b, from, until)
    ensures RevenueIn(orders, [], b, from, until) == 0
    ensures RevenueIn(orders, [p], b, from, until)
         == if p.status == Success && p.order < |orders| && orders[p.order].business == b && from <= p.createdAt < until
            then p.amount else 0
  {
    assert [p][..0] == [];
    if more == [] {
      assert payments + more == payments;
    } else {
      var n := |more| - 1;
      RevenueInIsASum(orders, payments, more[..n], p, b, from, until);
      assert (payments + more)[..|payments| + n] == payments + more[..n];
    }
  }

  function DayRevenue(orders: seq<Order>, payments: seq<Payment>, b: string, d: int): int {
    RevenueIn(orders, payments, b, d * DAY, (d + 1) * DAY)
  }

  /** On a day that starts no earlier than the cutoff, the filter loses no payment. */
  lemma {:induction false} CutoffLosesNothing(orders: seq<Order>, payments: seq<Payment>, b: string, cutoff: int,
      d: int)
    requires cutoff <= d * DAY
    ensures GroupSum(orders, payments, b, cutoff, d) == DayRevenue(orders, payments, b, d)
  {
    if payments != [] {
      CutoffLosesNothing(orders, payments[..|payments| - 1], b, cutoff, d);
    }
  }

  /** What the report must be: the `days` consecutive days that end today, each with its direct sum. */
  ghost predicate IsHistory(trend: seq<Entry>, orders: seq<Order>, payments: seq<Payment>, b: string, first: int) {
    forall i :: 0 <= i < |trend| ==>
      trend[i].date == first + i && trend[i].revenue == DayRevenue(orders, payments, b, first + i)
  }

  /** One entry: whatever the time of day, the date shown lies after the cutoff's own day. */
  lemma DayShown(now: int, days: int, i: nat)
    ensures Day(now - days * DAY + (i + 1) * DAY) == Day(now) - days + 1 + i
    ensures now - days * DAY <= (Day(now) - days + 1 + i) * DAY
  {
    assert now - days * DAY + (i + 1) * DAY == now + (i + 1 - days) * DAY;
  }

  /** The row of a displayed day, or its absence, tells the direct sum of the day. */
  lemma EntryValue(orders: seq<Order>, payments: seq<Payment>, b: string, cutoff: int, d: int)
    requires cutoff <= d * DAY
    ensures var rows := GroupByDay(orders, payments, b, cutoff);
            && (!HasDate(rows, d) ==> DayRevenue(orders, payments, b, d) == 0)
            && (forall i :: 0 <= i < |rows| && rows[i].date == d ==>
                rows[i].amount == DayRevenue(orders, payments, b, d))
  {
    var rows := GroupByDay(orders, payments, b, cutoff);
    CutoffLosesNothing(orders, payments, b, cutoff, d);
    GroupByDaySums(orders, payments, b, cutoff, d);
    if !HasDate(rows, d) { NoAmount(rows, d); }
    forall i | 0 <= i < |rows| && rows[i].date == d ensures rows[i].amount == DayRevenue(orders, payments, b, d) {
      AmountAt(rows, i);
    }
  }

  /** get_revenue_history. */
  method RevenueHistory(orders: seq<Order>, payments: seq<Payment>, b: string, now: int, days: int)
    returns (trend: seq<Entry>)
    ensures |trend| == if days < 0 then 0 else days
    ensures IsHistory(trend, orders, payments, b, Day(now) - days + 1)
    ensures days > 0 ==> trend[days - 1].date == Day(now)
  {
    hide Matches, GroupByDay, DayRevenue;
    var cutoff := now - days * DAY;
    var rows := GroupByDay(orders, payments, b, cutoff);
    GroupByDaySums(orders, payments, b, cutoff, 0);
    var dateMap: map<int, int> := map[];
    var k := 0;
    while k < |rows|
      invariant k <= |rows|
      invariant forall d :: d in dateMap <==> HasDate(rows[..k], d)
      invariant forall i :: 0 <= i < k ==> rows[i].date in dateMap && dateMap[rows[i].date] == rows[i].amount
    {
      var d := rows[k].date;
      dateMap := dateMap[d := rows[k].amount];
      k := k + 1;
      assert rows[..k] == rows[..k - 1] + [rows[k - 1]];
      forall x ensures x in dateMap <==> HasDate(rows[..k], x) {
        if x == d { assert rows[..k][k - 1].date == x; }
        else if HasDate(rows[..k - 1], x) {
          var i :| 0 <= i < k - 1 && rows[..k - 1][i].date == x;
          assert rows[..k][i].date == x;
        }
      }
    }
    assert rows[..k] == rows;
    trend := [];
    var i := 0;
    while i < days
      invariant 0 <= i && (i <= days || i == 0) && |trend| == i
      invariant IsHistory(trend, orders, payments, b, Day(now) - days + 1)
    {
      var d := Day(cutoff + (i + 1) * DAY);
      DayShown(now, days, i);
      EntryValue(orders, payments, b, cutoff, d);
      trend := trend + [Entry(d, if d in dateMap then dateMap[d] else 0)];
      i := i + 1;
    }
  }

  function TrendTotal(trend: seq<Entry>): int {
    if trend == [] then 0 else TrendTotal(trend[..|trend| - 1]) + trend[|trend| - 1].revenue
  }

  lemma {:induction false} TrendAddsUp(trend: seq<Entry>, more: seq<Entry>, e: Entry)
    ensures TrendTotal(trend + more) == TrendTotal(trend) + TrendTotal(more)
    ensures TrendTotal([]) == 0 && TrendTotal([e]) == e.revenue
  {
    assert [e][..0] == [];
    if more == [] {
      assert trend + more == trend;
    } else {
      var n := |more| - 1;
      TrendAddsUp(trend, more[..n], e);
      assert (trend + more)[..|trend| + n] == trend + more[..n];
    }
  }

  lemma {:induction false} RevenueSplits(orders: seq<Order>, payments: seq<Payment>, b: string, x: int, y: int, z: int)
    requires x <= y <= z
    ensures RevenueIn(orders, payments, b, x, y) + RevenueIn(orders, payments, b, y, z)
        == RevenueIn(orders, payments, b, x, z)
  {
    if payments != [] { RevenueSplits(orders, payments[..|payments| - 1], b, x, y, z); }
  }

  lemma {:induction false} NothingIn(orders: seq<Order>, payments: seq<Payment>, b: string, x: int)
    ensures RevenueIn(orders, payments, b, x, x) == 0
  {
    if payments != [] { NothingIn(orders, payments[..|payments| - 1], b, x); }
  }

  /** The entries add up to what was earned between the first shown midnight and the end of the last day. */
  lemma {:induction false} HistoryConserves(trend: seq<Entry>, orders: seq<Order>, payments: seq<Payment>, b: string,
      first: int)
    requires IsHistory(trend, orders, payments, b, first)
    ensures TrendTotal(trend) == RevenueIn(orders, payments, b, first * DAY, (first + |trend|) * DAY)
  {
    if trend == [] {
      NothingIn(orders, payments, b, first * DAY);
    } else {
      var n := |trend| - 1;
      HistoryConserves(trend[..n], orders, payments, b, first);
      RevenueSplits(orders, payments, b, first * DAY, (first + n) * DAY, (first + n + 1) * DAY);
    }
  }

  lemma {:induction false} AllIn(orders: seq<Order>, payments: seq<Payment>, b: string, from: int, until: int)
    requires forall k :: 0 <= k < |payments| && Earns(orders, payments[k], b) ==> from <= payments[k].createdAt < until
    ensures RevenueIn(orders, payments, b, from, until) == Revenue(orders, payments, b)
  {
    if payments != [] { AllIn(orders, payments[..|payments| - 1], b, from, until); }
  }

  /** The history and get_overview agree: a history that reaches back to the first successful payment adds up
      to the total revenue. */
  lemma HistoryMeetsOverview(trend: seq<Entry>, orders: seq<Order>, payments: seq<Payment>, b: string, now: int,
      days: nat)
    requires IsHistory(trend, orders, payments, b, Day(now) - days + 1) && |trend| == days
    requires forall k :: 0 <= k < |payments| && Earns(orders, payments[k], b) ==>
               payments[k].createdAt <= now && Day(now) - days < Day(payments[k].createdAt)
    ensures TrendTotal(trend) == Revenue(orders, payments, b)
  {
    var first := Day(now) - days + 1;
    HistoryConserves(trend, orders, payments, b, first);
    AllIn(orders, payments, b, first * DAY, (first + days) * DAY);
  }

  // ---- Orders by status ----

  function CountOf(orders: seq<Order>, b: string, s: OrderStatus): nat {
    if orders == [] then 0
    else
      var o := orders[|orders| - 1];
      CountOf(orders[..|orders| - 1], b, s) + if o.business == b && o.status == s then 1 else 0
  }

  /** The orders of the business with a status, counted directly. */
  function OrdersAt(orders: seq<Order>, b: string, s: OrderStatus): set<nat> {
    set i: nat | i < |orders| && orders[i].business == b && orders[i].status == s
  }

  lemma OrdersAtLast(orders: seq<Order>, b: string, s: OrderStatus)
    requires orders != []
    ensures var n := |orders| - 1;
            && n !in OrdersAt(orders[..n], b, s)
            && OrdersAt(orders, b, s)
               == OrdersAt(orders[..n], b, s) + if orders[n].business == b && orders[n].status == s then {n} else {}
  {
  }

  lemma {:induction false} CountOfCounts(orders: seq<Order>, b: string, s: OrderStatus)
    ensures CountOf(orders, b, s) == |OrdersAt(orders, b, s)|
  {
    if orders != [] {
      OrdersAtLast(orders, b, s);
      hide OrdersAt;
      CountOfCounts(orders[..|orders| - 1], b, s);
    } else {
      assert OrdersAt(orders, b, s) == {};
    }
  }

  /** The orders of the business. */
  function Owned(orders: seq<Order>, b: string): (r: seq<Order>)
    ensures forall o :: o in r <==> o in orders && o.business == b
  {
    if orders == [] then []
    else
      var o := orders[|orders| - 1];
      Owned(orders[..|orders| - 1], b) + if o.business == b then [o] else []
  }

  lemma {:induction false} StatusesPartition(orders: seq<Order>, b: string)
    ensures CountOf(orders, b, OrderPending) + CountOf(orders, b, Processing)
            + CountOf(orders, b, Completed) + CountOf(orders, b, Cancelled) == |Owned(orders, b)|
  {
    if orders != [] { StatusesPartition(orders[..|orders| - 1], b); }
  }

  datatype StatusRow = StatusRow(status: OrderStatus, count: nat)

  function StatusGroup(orders: seq<Order>, b: string, s: OrderStatus): seq<StatusRow> {
    if CountOf(orders, b, s) > 0 then [StatusRow(s, CountOf(orders, b, s))] else []
  }

  /** The grouped count: one row for each status the business has. SQL may return the rows in any order. */
  function GroupByStatus(orders: seq<Order>, b: string): seq<StatusRow> {
    StatusGroup(orders, b, OrderPending) + StatusGroup(orders, b, Processing)
    + StatusGroup(orders, b, Completed) + StatusGroup(orders, b, Cancelled)
  }

  /** Rows of different statuses with their counts, none missing. */
  ghost predicate StatusRows(rows: seq<StatusRow>, orders: seq<Order>, b: string) {
    && (forall i, j :: 0 <= i < j < |rows| ==> rows[i].status != rows[j].status)
    && (forall i :: 0 <= i < |rows| ==> rows[i].count == CountOf(orders, b, rows[i].status) > 0)
    && (forall s :: CountOf(orders, b, s) > 0 ==> exists i :: 0 <= i < |rows| && rows[i].status == s)
  }

  lemma GroupHas(orders: seq<Order>, b: string, r: StatusRow)
    ensures multiset(GroupByStatus(orders, b))[r] == if r.count == CountOf(orders, b, r.status) > 0 then 1 else 0
  {
    hide CountOf;
    match r.status
    case OrderPending =>
    case Processing =>
    case Completed =>
    case Cancelled =>
  }

  lemma TwiceInMultiset<T>(s: seq<T>, i: nat, j: nat)
    requires i < j < |s| && s[i] == s[j]
    ensures multiset(s)[s[i]] >= 2
  {
    assert s == s[..j] + s[j..];
    assert s[i] == s[..j][i] && s[j..][0] == s[i];
    assert s[i] in s[..j] && s[i] in s[j..];
    assert multiset(s) == multiset(s[..j]) + multiset(s[j..]);
    assert s[i] in multiset(s[..j]) && s[i] in multiset(s[j..]);
  }

  lemma AnyOrder(rows: seq<StatusRow>, orders: seq<Order>, b: string)
    requires multiset(rows) == multiset(GroupByStatus(orders, b))
    ensures StatusRows(rows, orders, b)
  {
    hide CountOf, GroupByStatus;
    forall i | 0 <= i < |rows| ensures rows[i].count == CountOf(orders, b, rows[i].status) > 0 {
      assert rows[i] in multiset(rows);
      GroupHas(orders, b, rows[i]);
    }
    forall i, j | 0 <= i < j < |rows| ensures rows[i].status != rows[j].status {
      if rows[i].status == rows[j].status {
        assert rows[i] == rows[j];
        TwiceInMultiset(rows, i, j);
        GroupHas(orders, b, rows[i]);
      }
    }
    forall s | CountOf(orders, b, s) > 0 ensures exists i :: 0 <= i < |rows| && rows[i].status == s {
      var r := StatusRow(s, CountOf(orders, b, s));
      GroupHas(orders, b, r);
      assert r in multiset(rows);
      assert r in rows;
    }
  }

  datatype Share = Share(count: nat, percentage: real)

  function Percentage(count: nat, total: nat): real {
    if total > 0 then (count as real / total as real) * 100.0 else 0.0
  }

  lemma PercentageScales(count: nat, total: nat)
    requires count <= total
    ensures Percentage(count, total) * total as real == 100.0 * count as real
  {
    if total > 0 {
      assert (count as real / total as real) * total as real == count as real;
    }
  }

  lemma RatiosAdd(x: real, y: real, t: real)
    requires t > 0.0
    ensures x / t + y / t == (x + y) / t
  {
  }

  lemma TwoAddUp(p: nat, q: nat, t: nat)
    ensures Percentage(p, t) + Percentage(q, t) == Percentage(p + q, t)
  {
    if t > 0 {
      RatiosAdd(p as real, q as real, t as real);
      assert (p as real) + (q as real) == (p + q) as real;
    }
  }

  lemma PercentagesAddUp(p: nat, q: nat, r: nat, s: nat)
    ensures var t := p + q + r + s;
            Percentage(p, t) + Percentage(q, t) + Percentage(r, t) + Percentage(s, t) == if t > 0 then 100.0 else 0.0
  {
    var t := p + q + r + s;
    TwoAddUp(p, q, t);
    TwoAddUp(p + q, r, t);
    TwoAddUp(p + q + r, s, t);
    if t > 0 { PercentageScales(t, t); }
    hide Percentage;
  }

  /** The sum of the four counts. */
  function Sum(m: map<OrderStatus, nat>): nat
    requires forall s: OrderStatus :: s in m
  {
    m[OrderPending] + m[Processing] + m[Completed] + m[Cancelled]
  }

  /** The breakdown once the first k rows are entered. */
  ghost predicate Entered(m: map<OrderStatus, nat>, rows: seq<StatusRow>, k: nat, total: nat) {
    && k <= |rows|
    && (forall s: OrderStatus :: s in m)
    && total == Sum(m)
    && (forall i :: 0 <= i < k ==> m[rows[i].status] == rows[i].count)
    && (forall s: OrderStatus :: (forall i :: 0 <= i < k ==> rows[i].status != s) ==> m[s] == 0)
  }

  lemma EnterRow(m: map<OrderStatus, nat>, rows: seq<StatusRow>, k: nat, total: nat, orders: seq<Order>, b: string)
    requires StatusRows(rows, orders, b) && Entered(m, rows, k, total) && k < |rows|
    ensures Entered(m[rows[k].status := rows[k].count], rows, k + 1, total + rows[k].count)
  {
    var m' := m[rows[k].status := rows[k].count];
    assert m[rows[k].status] == 0;
    match rows[k].status {
      case OrderPending => assert Sum(m') == Sum(m) + rows[k].count;
      case Processing => assert Sum(m') == Sum(m) + rows[k].count;
      case Completed => assert Sum(m') == Sum(m) + rows[k].count;
      case Cancelled => assert Sum(m') == Sum(m) + rows[k].count;
    }
    forall s: OrderStatus | forall i :: 0 <= i < k + 1 ==> rows[i].status != s ensures m'[s] == 0 {
      assert rows[k].status != s;
    }
  }

  lemma AllEntered(m: map<OrderStatus, nat>, rows: seq<StatusRow>, total: nat, orders: seq<Order>, b: string)
    requires StatusRows(rows, orders, b) && Entered(m, rows, |rows|, total)
    ensures total == |Owned(orders, b)| && forall s: OrderStatus :: s in m && m[s] == CountOf(orders, b, s)
  {
    forall s: OrderStatus ensures m[s] == CountOf(orders, b, s) {
      if i :| 0 <= i < |rows| && rows[i].status == s {
        assert m[rows[i].status] == rows[i].count;
      }
    }
    StatusesPartition(orders, b);
  }

  const NONE: map<OrderStatus, nat> := map[OrderPending := 0, Processing := 0, Completed := 0, Cancelled := 0]

  lemma NoneEntered(rows: seq<StatusRow>)
    ensures Entered(NONE, rows, 0, 0)
  {
    forall s: OrderStatus ensures s in NONE && NONE[s] == 0 {
      match s { case OrderPending => case Processing => case Completed => case Cancelled => }
    }
  }

  lemma SharesAddUp(m: map<OrderStatus, nat>, total: nat, orders: seq<Order>, b: string)
    requires total == |Owned(orders, b)| && forall s: OrderStatus :: s in m && m[s] == CountOf(orders, b, s)
    ensures forall s: OrderStatus :: Percentage(m[s], total) * total as real == 100.0 * m[s] as real
    ensures Percentage(m[OrderPending], total) + Percentage(m[Processing], total)
            + Percentage(m[Completed], total) + Percentage(m[Cancelled], total) == if total > 0 then 100.0 else 0.0
  {
    hide CountOf, Owned, Percentage;
    StatusesPartition(orders, b);
    var p, q, r, c := m[OrderPending], m[Processing], m[Completed], m[Cancelled];
    assert total == p + q + r + c;
    PercentagesAddUp(p, q, r, c);
    forall s: OrderStatus ensures Percentage(m[s], total) * total as real == 100.0 * m[s] as real {
      match s {
        case OrderPending => PercentageScales(p, total);
        case Processing => PercentageScales(q, total);
        case Completed => PercentageScales(r, total);
        case Cancelled => PercentageScales(c, total);
      }
    }
  }

  /** get_order_distribution; `rows` is the answer of the grouped query, in the order the database chose. */
  method OrderDistribution(orders: seq<Order>, b: string, rows: seq<StatusRow>)
    returns (total: nat, distribution: map<OrderStatus, Share>)
    requires multiset(rows) == multiset(GroupByStatus(orders, b))
    ensures total == |Owned(orders, b)|
    ensures forall s: OrderStatus :: s in distribution && distribution[s].count == CountOf(orders, b, s)
    ensures forall s: OrderStatus :: distribution[s].percentage * total as real == 100.0 * distribution[s].count as real
    ensures distribution[OrderPending].percentage + distribution[Processing].percentage
            + distribution[Completed].percentage + distribution[Cancelled].percentage
         == if total > 0 then 100.0 else 0.0
  {
    hide CountOf, Owned, Percentage, Entered, StatusRows, GroupByStatus;
    AnyOrder(rows, orders, b);
    NoneEntered(rows);
    var breakdown: map<OrderStatus, nat> := NONE;
    total := 0;
    var k := 0;
    while k < |rows|
      invariant k <= |rows| && Entered(breakdown, rows, k, total)
    {
      EnterRow(breakdown, rows, k, total, orders, b);
      breakdown := breakdown[rows[k].status := rows[k].count];
      total := total + rows[k].count;
      k := k + 1;
    }
    AllEntered(breakdown, rows, total, orders, b);
    var statuses := [OrderPending, Processing, Completed, Cancelled];
    distribution := map[];
    k := 0;
    while k < |statuses|
      invariant k <= |statuses|
      invariant forall j :: 0 <= j < k ==> statuses[j] in distribution
      invariant forall s :: s in distribution ==>
          distribution[s] == Share(breakdown[s], Percentage(breakdown[s], total))
    {
      var s := statuses[k];
      distribution := distribution[s := Share(breakdown[s], Percentage(breakdown[s], total))];
      k := k + 1;
    }
    forall s: OrderStatus ensures s in distribution {
      assert s == statuses[0] || s == statuses[1] || s == statuses[2] || s == statuses[3];
    }
    SharesAddUp(breakdown, total, orders, b);
  }
}
