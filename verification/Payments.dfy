/** Orders, payments and the events they emit: OrderService and PaymentService over one database.
    Amounts are integers in minor units. */
module Payments {
  import opened Options

  datatype OrderStatus = OrderPending | Processing | Completed | Cancelled

  datatype PaymentStatus = Pending | Success | PaymentFailed

  datatype Order = Order(id: nat, business: string, customer: nat, amount: int, status: OrderStatus)

  datatype Payment = Payment(id: nat, order: nat, txRef: string, status: PaymentStatus, amount: int, createdAt: int)

  datatype Event =
    | OrderCreated(order: nat, business: string, customer: nat, amount: int)
    | StatusChanged(order: nat, business: string, from: OrderStatus, to: OrderStatus)
    | PaymentInitialized(payment: nat, order: nat, txRef: string)
    | PaymentSuccessful(payment: nat, order: nat, amount: int)

  /** Rows are stored under their position: row i has id i. */
  ghost predicate IdsOk(orders: seq<Order>, payments: seq<Payment>) {
    && (forall i :: 0 <= i < |orders| ==> orders[i].id == i)
    && (forall i :: 0 <= i < |payments| ==> payments[i].id == i && payments[i].order < |orders|)
    && (forall i, j :: 0 <= i < j < |payments| ==> payments[i].txRef != payments[j].txRef)
  }

  /** How often success was announced for a payment. */
  function Announced(events: seq<Event>, p: nat): nat {
    if events == [] then 0
    else
      var e := events[|events| - 1];
      Announced(events[..|events| - 1], p) + if e.PaymentSuccessful? && e.payment == p then 1 else 0
  }

  /** The sum of the announced amounts whose order belongs to the business. */
  function AnnouncedRevenue(orders: seq<Order>, events: seq<Event>, b: string): int {
    if events == [] then 0
    else
      var e := events[|events| - 1];
      AnnouncedRevenue(orders, events[..|events| - 1], b)
      + if e.PaymentSuccessful? && e.order < |orders| && orders[e.order].business == b then e.amount else 0
  }

  predicate Earns(orders: seq<Order>, p: Payment, b: string) {
    p.status == Success && p.order < |orders| && orders[p.order].business == b
  }

  /** SUM(amount) over the successful payments joined with the business's orders. */
  function Revenue(orders: seq<Order>, payments: seq<Payment>, b: string): int {
    if payments == [] then 0
    else
      var p := payments[|payments| - 1];
      Revenue(orders, payments[..|payments| - 1], b) + if Earns(orders, p, b) then p.amount else 0
  }

  /** How often a success was announced, counted directly. */
  function AnnouncedAt(events: seq<Event>, p: nat): set<nat> {
    set i: nat | i < |events| && events[i].PaymentSuccessful? && events[i].payment == p
  }

  lemma AnnouncedAtLast(events: seq<Event>, p: nat)
    requires events != []
    ensures var n := |events| - 1;
            && n !in AnnouncedAt(events[..n], p)
            && AnnouncedAt(events, p)
               == AnnouncedAt(events[..n], p)
                  + if events[n].PaymentSuccessful? && events[n].payment == p then {n} else {}
  {
  }

  lemma {:induction false} AnnouncedCounts(events: seq<Event>, p: nat)
    ensures Announced(events, p) == |AnnouncedAt(events, p)|
  {
    if events != [] {
      AnnouncedAtLast(events, p);
      hide AnnouncedAt;
      AnnouncedCounts(events[..|events| - 1], p);
    } else {
      assert AnnouncedAt(events, p) == {};
    }
  }

  /** The revenue of a table is that of its parts, and a single payment counts in full exactly when it is
      successful and its order is the business's. */
  lemma {:induction false} RevenueIsASum(orders: seq<Order>, payments: seq<Payment>, more: seq<Payment>, p: Payment,
                                         b: string)
    ensures Revenue(orders, payments + more, b) == Revenue(orders, payments, b) + Revenue(orders, more, b)
    ensures Revenue(orders, [], b) == 0
    ensures Revenue(orders, [p], b)
         == if p.status == Success && p.order < |orders| && orders[p.order].business == b then p.amount else 0
  {
    assert [p][..0] == [];
    if more == [] {
      assert payments + more == payments;
    } else {
      var n := |more| - 1;
      RevenueIsASum(orders, payments, more[..n], p, b);
      assert (payments + more)[..|payments| + n] == payments + more[..n];
    }
  }

  /** The announced revenue of one event. */
  lemma AnnouncedRevenueOfOne(orders: seq<Order>, e: Event, b: string)
    ensures AnnouncedRevenue(orders, [], b) == 0
    ensures AnnouncedRevenue(orders, [e], b)
         == if e.PaymentSuccessful? && e.order < |orders| && orders[e.order].business == b then e.amount else 0
  {
    assert [e][..0] == [];
  }

  ghost predicate SameTerms(a: seq<Order>, b: seq<Order>) {
    |a| <= |b| && forall i :: 0 <= i < |a| ==> b[i].(status := a[i].status) == a[i]
  }

  lemma {:induction false} RevenueFrame(orders: seq<Order>, orders': seq<Order>, payments: seq<Payment>, b: string)
    requires SameTerms(orders, orders') && forall i :: 0 <= i < |payments| ==> payments[i].order < |orders|
    ensures Revenue(orders', payments, b) == Revenue(orders, payments, b)
  {
    if payments != [] { RevenueFrame(orders, orders', payments[..|payments| - 1], b); }
  }

  lemma {:induction false} AnnouncedRevenueFrame(orders: seq<Order>, orders': seq<Order>, events: seq<Event>, b: string)
    requires SameTerms(orders, orders')
    requires forall i :: 0 <= i < |events| && events[i].PaymentSuccessful? ==> events[i].order < |orders|
    ensures AnnouncedRevenue(orders', events, b) == AnnouncedRevenue(orders, events, b)
  {
    if events != [] { AnnouncedRevenueFrame(orders, orders', events[..|events| - 1], b); }
  }

  lemma {:induction false} RevenueUpdate(orders: seq<Order>, payments: seq<Payment>, i: nat, p: Payment, b: string)
    requires i < |payments|
    ensures Revenue(orders, payments[i := p], b) == Revenue(orders, payments, b)
              - (if Earns(orders, payments[i], b) then payments[i].amount else 0)
              + (if Earns(orders, p, b) then p.amount else 0)
  {
    var n := |payments| - 1;
    if i < n {
      assert payments[i := p][..n] == payments[..n][i := p];
      RevenueUpdate(orders, payments[..n], i, p, b);
    } else {
      assert payments[i := p][..n] == payments[..n];
    }
  }

  /** What holds of the database and the emitted events in every run. */
  ghost predicate Sound(orders: seq<Order>, payments: seq<Payment>, events: seq<Event>) {
    && IdsOk(orders, payments)
    && (forall i :: 0 <= i < |payments| ==>
          && payments[i].amount == orders[payments[i].order].amount
          && payments[i].status != PaymentFailed
          && Announced(events, i) == if payments[i].status == Success then 1 else 0)
    && (forall i :: 0 <= i < |events| && events[i].PaymentSuccessful? ==>
          var e := events[i];
          e.payment < |payments| && e.order == payments[e.payment].order && e.amount == payments[e.payment].amount)
    && (forall b :: Revenue(orders, payments, b) == AnnouncedRevenue(orders, events, b))
  }

  lemma {:induction false} NotAnnounced(events: seq<Event>, p: nat)
    requires forall i :: 0 <= i < |events| && events[i].PaymentSuccessful? ==> events[i].payment != p
    ensures Announced(events, p) == 0
  {
    if events != [] { NotAnnounced(events[..|events| - 1], p); }
  }

  lemma Append(orders: seq<Order>, events: seq<Event>, e: Event)
    ensures forall p :: Announced(events + [e], p)
                        == Announced(events, p) + if e.PaymentSuccessful? && e.payment == p then 1 else 0
    ensures forall b :: AnnouncedRevenue(orders, events + [e], b) == AnnouncedRevenue(orders, events, b)
                        + if e.PaymentSuccessful? && e.order < |orders| && orders[e.order].business == b
                          then e.amount else 0
  {
    assert (events + [e])[..|events|] == events;
  }

  /** Orders may be added and change status; other events may be emitted. */
  lemma OrdersMove(orders: seq<Order>, orders': seq<Order>, payments: seq<Payment>, events: seq<Event>, e: Event)
    requires Sound(orders, payments, events) && SameTerms(orders, orders')
    requires forall i :: 0 <= i < |orders'| ==> orders'[i].id == i
    requires !e.PaymentSuccessful?
    ensures Sound(orders', payments, events + [e])
  {
    Append(orders', events, e);
    forall b ensures Revenue(orders', payments, b) == AnnouncedRevenue(orders', events + [e], b) {
      RevenueFrame(orders, orders', payments, b);
      AnnouncedRevenueFrame(orders, orders', events, b);
    }
  }

  lemma PaymentAdded(orders: seq<Order>, payments: seq<Payment>, events: seq<Event>, p: Payment, e: Event)
    requires Sound(orders, payments, events) && !e.PaymentSuccessful?
    requires p.id == |payments| && p.order < |orders| && p.amount == orders[p.order].amount && p.status == Pending
    requires forall i :: 0 <= i < |payments| ==> payments[i].txRef != p.txRef
    ensures Sound(orders, payments + [p], events + [e])
  {
    hide Announced, AnnouncedRevenue;
    Append(orders, events, e);
    NotAnnounced(events, |payments|);
    forall b ensures Revenue(orders, payments + [p], b) == AnnouncedRevenue(orders, events + [e], b) {
      assert (payments + [p])[..|payments|] == payments;
    }
    hide Revenue;
  }

  lemma PaymentSucceeds(orders: seq<Order>, payments: seq<Payment>, events: seq<Event>, i: nat)
    requires Sound(orders, payments, events) && i < |payments| && payments[i].status == Pending
    ensures Sound(orders, payments[i := payments[i].(status := Success)],
                  events + [PaymentSuccessful(i, payments[i].order, payments[i].amount)])
  {
    var e := PaymentSuccessful(i, payments[i].order, payments[i].amount);
    var payments' := payments[i := payments[i].(status := Success)];
    Append(orders, events, e);
    forall b ensures Revenue(orders, payments', b) == AnnouncedRevenue(orders, events + [e], b) {
      RevenueUpdate(orders, payments, i, payments'[i], b);
    }
  }

  /** What any stretch of a run may do to the state: orders and payments stay, an order changes nothing but
      its status, a payment nothing but from pending to successful, and events are only added. */
  ghost predicate Follows(orders: seq<Order>, payments: seq<Payment>, events: seq<Event>,
                          orders': seq<Order>, payments': seq<Payment>, events': seq<Event>) {
    && SameTerms(orders, orders')
    && |payments| <= |payments'|
    && (forall i :: 0 <= i < |payments| ==>
          || payments'[i] == payments[i]
          || (payments[i].status == Pending && payments'[i] == payments[i].(status := Success)))
    && events <= events'
  }

  lemma FollowsCompose(orders: seq<Order>, payments: seq<Payment>, events: seq<Event>,
                       orders1: seq<Order>, payments1: seq<Payment>, events1: seq<Event>,
                       orders2: seq<Order>, payments2: seq<Payment>, events2: seq<Event>)
    requires Follows(orders, payments, events, orders1, payments1, events1)
    requires Follows(orders1, payments1, events1, orders2, payments2, events2)
    ensures Follows(orders, payments, events, orders2, payments2, events2)
  {
    forall i | 0 <= i < |orders| ensures orders2[i].(status := orders[i].status) == orders[i] {
      assert orders1[i].(status := orders[i].status) == orders[i];
      assert orders2[i].(status := orders1[i].status) == orders1[i];
    }
  }

  lemma {:induction false} AnnouncedConcat(orders: seq<Order>, events: seq<Event>, more: seq<Event>, p: nat, b: string)
    ensures Announced(events + more, p) == Announced(events, p) + Announced(more, p)
    ensures AnnouncedRevenue(orders, events + more, b)
        == AnnouncedRevenue(orders, events, b) + AnnouncedRevenue(orders, more, b)
  {
    if more == [] {
      assert events + more == events;
    } else {
      var n := |more| - 1;
      AnnouncedConcat(orders, events, more[..n], p, b);
      assert (events + more)[..|events| + n] == events + more[..n];
    }
  }

  /** Over any stretch of a run, a payment is announced exactly when it became successful in that stretch, and
      the reported revenue grows by what the stretch announced. */
  lemma {:induction false} StretchAnnounces(orders: seq<Order>, payments: seq<Payment>, events: seq<Event>,
                         orders': seq<Order>, payments': seq<Payment>, events': seq<Event>, p: nat, b: string)
    requires Sound(orders, payments, events) && Sound(orders', payments', events')
    requires Follows(orders, payments, events, orders', payments', events') && p < |payments'|
    ensures Announced(events'[|events|..], p)
         == if payments'[p].status == Success && (p < |payments| ==> payments[p].status == Pending) then 1 else 0
    ensures Revenue(orders', payments', b)
        == Revenue(orders, payments, b) + AnnouncedRevenue(orders', events'[|events|..], b)
  {
    assert events' == events + events'[|events|..];
    AnnouncedConcat(orders', events, events'[|events|..], p, b);
    AnnouncedRevenueFrame(orders, orders', events, b);
    if p >= |payments| { NotAnnounced(events, p); }
  }

  lemma FollowsItself(orders: seq<Order>, payments: seq<Payment>, events: seq<Event>)
    ensures Follows(orders, payments, events, orders, payments, events)
  {
  }

  lemma VerifySound(orders: seq<Order>, payments: seq<Payment>, events: seq<Event>, i: nat)
    requires Sound(orders, payments, events) && i < |payments| && payments[i].status == Pending
    ensures var p := payments[i];
            && p.order < |orders|
            && var orders' := orders[p.order := orders[p.order].(status := Completed)];
               var payments' := payments[i := p.(status := Success)];
               var events' := events + [PaymentSuccessful(i, p.order, p.amount)];
               Sound(orders', payments', events') && Follows(orders, payments, events, orders', payments', events')
  {
    hide Announced, AnnouncedRevenue, Revenue;
    var p := payments[i];
    PaymentSucceeds(orders, payments, events, i);
    OrdersRestatus(orders, orders[p.order := orders[p.order].(status := Completed)],
                   payments[i := p.(status := Success)],
                   events + [PaymentSuccessful(i, p.order, p.amount)]);
  }

  class Shop {
    var orders: seq<Order>
    var payments: seq<Payment>
    var customers: map<nat, string>  // a customer's business
    ghost var events: seq<Event>

    ghost predicate Valid()
      reads this
    {
      Sound(orders, payments, events)
    }

    constructor (customers: map<nat, string>)
      ensures Valid() && orders == [] && payments == [] && events == []
    {
      orders, payments, events, this.customers := [], [], [], customers;
    }

    /** create_order: None stands for its NotFoundError. */
    method CreateOrder(b: string, customer: nat, amount: int) returns (id: Option<nat>)
      requires Valid()
      modifies this
      ensures Valid() && Follows(old(orders), old(payments), old(events), orders, payments, events)
      ensures payments == old(payments) && customers == old(customers)
      ensures id.Some? <==> customer in customers && customers[customer] == b
      ensures id.Some? ==> id.value == |old(orders)|
                           && orders == old(orders) + [Order(id.value, b, customer, amount, OrderPending)]
                           && events == old(events) + [OrderCreated(id.value, b, customer, amount)]
      ensures id.None? ==> orders == old(orders) && events == old(events)
    {
      if customer !in customers || customers[customer] != b {
        return None;
      }
      var row := Order(|orders|, b, customer, amount, OrderPending);
      ghost var e := OrderCreated(row.id, b, customer, amount);
      OrdersMove(orders, orders + [row], payments, events, e);
      orders := orders + [row];
      events := events + [e];
      id := Some(row.id);
    }

    /** update_status: false stands for its NotFoundError; an unchanged status emits nothing. */
    method UpdateStatus(b: string, id: nat, status: OrderStatus) returns (found: bool)
      requires Valid()
      modifies this
      ensures Valid() && Follows(old(orders), old(payments), old(events), orders, payments, events)
      ensures payments == old(payments) && customers == old(customers)
      ensures found <==> id < |old(orders)| && old(orders)[id].business == b
      ensures orders == if found then old(orders)[id := old(orders)[id].(status := status)] else old(orders)
      ensures events == old(events) + if found && old(orders)[id].status != status
                                      then [StatusChanged(id, b, old(orders)[id].status, status)] else []
    {
      if id >= |orders| || orders[id].business != b {
        return false;
      }
      found := true;
      if orders[id].status == status {
        return;
      }
      ghost var e := StatusChanged(id, b, orders[id].status, status);
      var orders' := orders[id := orders[id].(status := status)];
      OrdersMove(orders, orders', payments, events, e);
      orders := orders';
      events := events + [e];
    }

    /** initialize_payment with a drawn reference: None stands for its NotFoundError, or for the unique
        constraint when the reference was drawn before. */
    method InitializePayment(b: string, order: nat, txRef: string, now: int) returns (id: Option<nat>)
      requires Valid()
      modifies this
      ensures Valid() && Follows(old(orders), old(payments), old(events), orders, payments, events)
      ensures orders == old(orders) && customers == old(customers)
      ensures id.Some? <==>
                && order < |orders| && orders[order].business == b
                && forall i :: 0 <= i < |old(payments)| ==> old(payments)[i].txRef != txRef
      ensures id.Some? ==> id.value == |old(payments)|
                           && payments == old(payments) + [Payment(id.value, order, txRef, Pending,
                               orders[order].amount, now)]
                           && events == old(events) + [PaymentInitialized(id.value, order, txRef)]
      ensures id.None? ==> payments == old(payments) && events == old(events)
    {
      if order >= |orders| || orders[order].business != b {
        return None;
      }
      var taken := FindRef(txRef);
      if taken.Some? {
        return None;
      }
      var p := Payment(|payments|, order, txRef, Pending, orders[order].amount, now);
      ghost var e := PaymentInitialized(p.id, order, txRef);
      PaymentAdded(orders, payments, events, p, e);
      payments := payments + [p];
      events := events + [e];
      id := Some(p.id);
    }

    /** get_one_by(tx_ref). */
    method FindRef(txRef: string) returns (i: Option<nat>)
      ensures i.Some? ==> i.value < |payments| && payments[i.value].txRef == txRef
      ensures i.None? ==> forall k :: 0 <= k < |payments| ==> payments[k].txRef != txRef
    {
      var k := 0;
      while k < |payments|
        invariant k <= |payments| && forall j :: 0 <= j < k ==> payments[j].txRef != txRef
      {
        if payments[k].txRef == txRef {
          return Some(k);
        }
        k := k + 1;
      }
      i := None;
    }

    /** verify_payment: None stands for its NotFoundError. A pending payment becomes successful, its order
        completed, and the success is announced; any other payment is left alone. */
    method VerifyPayment(txRef: string) returns (i: Option<nat>)
      requires Valid()
      modifies this
      ensures Valid() && Follows(old(orders), old(payments), old(events), orders, payments, events)
      ensures customers == old(customers)
      ensures i.Some? ==> i.value < |old(payments)| && old(payments)[i.value].txRef == txRef
      ensures i.None? ==> forall k :: 0 <= k < |old(payments)| ==> old(payments)[k].txRef != txRef
      ensures if i.Some? && old(payments)[i.value].status == Pending then
                var p := old(payments)[i.value];
                && payments == old(payments)[i.value := p.(status := Success)]
                && p.order < |old(orders)|
                && orders == old(orders)[p.order := old(orders)[p.order].(status := Completed)]
                && events == old(events) + [PaymentSuccessful(i.value, p.order, p.amount)]
              else payments == old(payments) && orders == old(orders) && events == old(events)
    {
      hide Sound, Follows;
      i := FindRef(txRef);
      if i.None? || payments[i.value].status != Pending {
        FollowsItself(orders, payments, events);
        return;
      }
      var p := payments[i.value];
      VerifySound(orders, payments, events, i.value);
      payments := payments[i.value := p.(status := Success)];
      orders := orders[p.order := orders[p.order].(status := Completed)];
      events := events + [PaymentSuccessful(i.value, p.order, p.amount)];
    }

    /** handle_webhook: only a charge.success with a reference verifies its payment. `found` is false
        where the verification raises its NotFoundError. */
    method HandleWebhook(event: string, reference: Option<string>) returns (handled: bool, found: bool)
      requires Valid()
      modifies this
      ensures Valid() && Follows(old(orders), old(payments), old(events), orders, payments, events)
      ensures customers == old(customers)
      ensures handled <==> event == "charge.success" && reference.Some? && reference.value != ""
      ensures found <==> handled && exists i :: 0 <= i < |old(payments)| && old(payments)[i].txRef == reference.value
      ensures !found ==> payments == old(payments) && orders == old(orders) && events == old(events)
      ensures found ==> forall i :: 0 <= i < |old(payments)| && old(payments)[i].txRef == reference.value
                            ==> i < |payments| && payments[i].status == Success
      ensures handled ==> forall i :: 0 <= i < |old(payments)| && old(payments)[i].txRef == reference.value ==>
                var p := old(payments)[i];
                if p.status == Pending then
                  && payments == old(payments)[i := p.(status := Success)]
                  && p.order < |old(orders)|
                  && orders == old(orders)[p.order := old(orders)[p.order].(status := Completed)]
                  && events == old(events) + [PaymentSuccessful(i, p.order, p.amount)]
                else payments == old(payments) && orders == old(orders) && events == old(events)
      ensures |payments| == |old(payments)| && forall i :: 0 <= i < |payments| ==>
                || payments[i] == old(payments)[i]
                || (old(payments)[i].status == Pending && payments[i] == old(payments)[i].(status := Success))
    {
      handled := event == "charge.success" && reference.Some? && reference.value != "";
      found := false;
      if handled {
        var i := VerifyPayment(reference.value);
        found := i.Some?;
      }
    }
  }

  lemma OrdersRestatus(orders: seq<Order>, orders': seq<Order>, payments: seq<Payment>, events: seq<Event>)
    requires Sound(orders, payments, events) && SameTerms(orders, orders')
    requires forall i :: 0 <= i < |orders'| ==> orders'[i].id == i
    ensures Sound(orders', payments, events)
  {
    forall b ensures Revenue(orders', payments, b) == AnnouncedRevenue(orders', events, b) {
      RevenueFrame(orders, orders', payments, b);
      AnnouncedRevenueFrame(orders, orders', events, b);
    }
  }
}
