/** Orders: created unpaid and not completed, then paid, then completed in the kitchen.
    The order repository is a store from id to order; every call first resolves the current user. */
module Orders {
  import opened Common
  import opened SecurityUtil
  import opened Query

  datatype OrderItem = OrderItem(menuId: int, name: string, quantity: int, price: int)

  datatype Order = Order(
    id: Option<string>,
    ownerId: string,
    orderId: int,
    tableId: int,
    tableName: string,
    items: seq<OrderItem>,
    orderTime: Option<string>,
    orderDate: Option<string>,
    totalPrice: int,
    paid: bool,
    completed: bool,
    createdAt: int)

  /** The clock readings createOrder takes: the millisecond timestamp used as orderId,
      the creation instant, today's date as YYYY-MM-DD and the time as HH:mm. */
  datatype Clock = Clock(millis: int, now: int, today: string, time: string)

  const OrderNotFound := "주문을 찾을 수 없습니다."
  const NotYourOrder := "이 주문에 대한 권한이 없습니다."

  /** Every stored order carries its own key as id. */
  predicate Stored(s: map<string, Order>) {
    forall k :: k in s ==> s[k].id == Some(k)
  }

  /** The current user resolves and owns the stored order `id`. */
  predicate Owns(s: map<string, Order>, auth: Option<Authentication>, id: string) {
    CurrentUserId(auth).Ok? && id in s && s[id].ownerId == CurrentUserId(auth).value
  }

  /** An order the table's order screen still lists: the owner's, on that table, not yet paid. */
  predicate IsUnpaidAt(o: Order, owner: string, tableId: int) {
    o.ownerId == owner && o.tableId == tableId && !o.paid
  }

  /** A remaining order: the owner's, paid, and not yet completed in the kitchen. */
  predicate IsRemaining(o: Order, owner: string) {
    o.ownerId == owner && o.paid && !o.completed
  }

  /** The orders of one owner, by id. */
  function OwnerView(s: map<string, Order>, owner: string): map<string, Order> {
    map k | k in s && s[k].ownerId == owner :: s[k]
  }

  /** The order createOrder hands to the repository. */
  function Stamp(order: Order, owner: string, clock: Clock): (o: Order)
    ensures o.ownerId == owner && o.orderId == clock.millis && o.createdAt == clock.now
    ensures !o.paid && !o.completed
    ensures o.orderDate == (if order.orderDate.Some? then order.orderDate else Some(clock.today))
    ensures o.orderTime == (if order.orderTime.Some? then order.orderTime else Some(clock.time))
    ensures o.id == order.id && o.tableId == order.tableId && o.tableName == order.tableName
    ensures o.items == order.items && o.totalPrice == order.totalPrice
  {
    var o := order.(ownerId := owner, orderId := clock.millis, paid := false, completed := false, createdAt := clock.now);
    var o := if o.orderDate.None? then o.(orderDate := Some(clock.today)) else o;
    if o.orderTime.None? then o.(orderTime := Some(clock.time)) else o
  }

  /** createOrder as written: the incoming id is not cleared, so an id supplied by the client
      is saved over whatever order has that id; only a null id gets the fresh `newId`. */
  function CreateOrderAsWritten(s: map<string, Order>, auth: Option<Authentication>, order: Order, newId: string, clock: Clock): (st: Step<Order, Order>)
    requires newId !in s
    ensures CurrentUserId(auth).Err? ==> st == Step(Err(CurrentUserId(auth).error), s)
    ensures CurrentUserId(auth).Ok? ==>
      && st.out.Ok?
      && st.out.value == Stamp(order, CurrentUserId(auth).value, clock).(id := Some(if order.id.Some? then order.id.value else newId))
    ensures st.out.Ok? ==> st.out.value.id.Some? && st.store == s[st.out.value.id.value := st.out.value]
    ensures Stored(s) ==> Stored(st.store)
  {
    match CurrentUserId(auth)
    case Err(e) => Step(Err(e), s)
    case Ok(owner) =>
      var key := if order.id.Some? then order.id.value else newId;
      var saved := Stamp(order, owner, clock).(id := Some(key));
      Step(Ok(saved), s[key := saved])
  }

  /** A client-supplied id lets a user replace another owner's order. */
  lemma CreateOrderAsWrittenOverwritesForeignOrder()
    ensures
      var victim := Order(Some("o1"), "alice", 1, 3, "3번 테이블", [], Some("12:00"), Some("2025-01-01"), 9000, true, false, 10);
      var incoming := victim.(ownerId := "", items := [], totalPrice := 0);
      var st := CreateOrderAsWritten(map["o1" := victim], Some(Authentication(true, Text("bob"))), incoming, "o2", Clock(2, 20, "2025-01-02", "13:00"));
      && st.out.Ok?
      && st.store.Keys == {"o1"}
      && st.store["o1"].ownerId == "bob"
      && OwnerView(st.store, "alice") == map[]
  {
    var victim := Order(Some("o1"), "alice", 1, 3, "3번 테이블", [], Some("12:00"), Some("2025-01-01"), 9000, true, false, 10);
    var incoming := victim.(ownerId := "", items := [], totalPrice := 0);
    var st := CreateOrderAsWritten(map["o1" := victim], Some(Authentication(true, Text("bob"))), incoming, "o2", Clock(2, 20, "2025-01-02", "13:00"));
    assert st.store == map["o1" := st.out.value];
    assert "o1" !in OwnerView(st.store, "alice");
  }

  /** Without a client-supplied id, createOrder as written is the corrected create. */
  lemma CreateOrderAsWrittenWithoutId(s: map<string, Order>, auth: Option<Authentication>, order: Order, newId: string, clock: Clock)
    requires newId !in s && order.id.None?
    ensures CreateOrderAsWritten(s, auth, order, newId, clock) == CreateOrderStep(s, auth, order, newId, clock)
  {
    assert order.(id := None) == order;
  }

  /** createOrder as written leaves another owner's orders alone exactly when the supplied id,
      if any, does not name one of that owner's stored orders. */
  lemma CreateOrderAsWrittenIsolation(s: map<string, Order>, auth: Option<Authentication>, order: Order, newId: string, clock: Clock, other: string)
    requires newId !in s
    requires CurrentUserId(auth).Ok? && other != CurrentUserId(auth).value
    ensures OwnerView(CreateOrderAsWritten(s, auth, order, newId, clock).store, other) == OwnerView(s, other)
        <==> !(order.id.Some? && order.id.value in s && s[order.id.value].ownerId == other)
  {
    var key := if order.id.Some? then order.id.value else newId;
    var t := CreateOrderAsWritten(s, auth, order, newId, clock).store;
    assert t == s[key := t[key]] && t[key].ownerId != other;
    if order.id.Some? && order.id.value in s && s[order.id.value].ownerId == other {
      assert key in OwnerView(s, other) && key !in OwnerView(t, other);
    } else {
      OwnerViewKept(s, t, key, other);
    }
  }

  /** createOrder with the incoming id cleared, as menus and reservations are created: the
      repository always assigns a fresh id, so no existing order is touched. */
  function CreateOrderStep(s: map<string, Order>, auth: Option<Authentication>, order: Order, newId: string, clock: Clock): (st: Step<Order, Order>)
    requires newId !in s
    ensures CurrentUserId(auth).Err? ==> st == Step(Err(CurrentUserId(auth).error), s)
    ensures CurrentUserId(auth).Ok? ==> st.out.Ok?
    ensures st.out.Ok? ==>
      && st.out.value == Stamp(order, CurrentUserId(auth).value, clock).(id := Some(newId))
      && st.store.Keys == s.Keys + {newId}
      && st.store[newId] == st.out.value
      && (forall k :: k in s ==> st.store[k] == s[k])
    ensures Stored(s) ==> Stored(st.store)
  {
    match CurrentUserId(auth)
    case Err(e) => Step(Err(e), s)
    case Ok(owner) =>
      var saved := Stamp(order.(id := None), owner, clock).(id := Some(newId));
      Step(Ok(saved), s[newId := saved])
  }

  /** payOrder: the order must exist and belong to the current user; then only `paid` changes. */
  function PayOrderStep(s: map<string, Order>, auth: Option<Authentication>, id: string): (st: Step<Order, Order>)
    ensures st.out.Ok? <==> Owns(s, auth, id)
    ensures CurrentUserId(auth).Err? ==> st == Step(Err(CurrentUserId(auth).error), s)
    ensures CurrentUserId(auth).Ok? && id !in s ==> st == Step(Err(ResourceNotFound(OrderNotFound)), s)
    ensures CurrentUserId(auth).Ok? && id in s && !Owns(s, auth, id) ==> st == Step(Err(Unauthorized(NotYourOrder)), s)
    ensures st.out.Ok? ==>
      && st.out.value.paid
      && st.out.value.(paid := s[id].paid) == s[id]
      && OnlyChangedAt(s, st.store, id)
      && st.store[id] == st.out.value
  {
    match CurrentUserId(auth)
    case Err(e) => Step(Err(e), s)
    case Ok(owner) =>
      if id !in s then Step(Err(ResourceNotFound(OrderNotFound)), s)
      else if s[id].ownerId != owner then Step(Err(Unauthorized(NotYourOrder)), s)
      else
        var o := s[id].(paid := true);
        Step(Ok(o), s[id := o])
  }

  /** completeOrder: the same two guards as payOrder; then only `completed` changes.
      An unpaid order can be completed. */
  function CompleteOrderStep(s: map<string, Order>, auth: Option<Authentication>, id: string): (st: Step<Order, Order>)
    ensures st.out.Ok? <==> Owns(s, auth, id)
    ensures CurrentUserId(auth).Err? ==> st == Step(Err(CurrentUserId(auth).error), s)
    ensures CurrentUserId(auth).Ok? && id !in s ==> st == Step(Err(ResourceNotFound(OrderNotFound)), s)
    ensures CurrentUserId(auth).Ok? && id in s && !Owns(s, auth, id) ==> st == Step(Err(Unauthorized(NotYourOrder)), s)
    ensures st.out.Ok? ==>
      && st.out.value.completed
      && st.out.value.(completed := s[id].completed) == s[id]
      && OnlyChangedAt(s, st.store, id)
      && st.store[id] == st.out.value
  {
    match CurrentUserId(auth)
    case Err(e) => Step(Err(e), s)
    case Ok(owner) =>
      if id !in s then Step(Err(ResourceNotFound(OrderNotFound)), s)
      else if s[id].ownerId != owner then Step(Err(Unauthorized(NotYourOrder)), s)
      else
        var o := s[id].(completed := true);
        Step(Ok(o), s[id := o])
  }

  /** Paying an order twice is the same as paying it once. */
  lemma PayOrderIdempotent(s: map<string, Order>, auth: Option<Authentication>, id: string)
    ensures var once := PayOrderStep(s, auth, id);
      PayOrderStep(once.store, auth, id) == once
  {
  }

  /** Paying and completing commute: the store ends the same in either order. */
  lemma PayAndCompleteCommute(s: map<string, Order>, auth: Option<Authentication>, id: string)
    ensures PayOrderStep(CompleteOrderStep(s, auth, id).store, auth, id).store
         == CompleteOrderStep(PayOrderStep(s, auth, id).store, auth, id).store
  {
  }

  /** Replacing one record by another with the same owner, or adding a record of a
      different owner, leaves the view of `other` as it was. */
  lemma OwnerViewKept(s: map<string, Order>, t: map<string, Order>, id: string, other: string)
    requires s.Keys <= t.Keys && t.Keys <= s.Keys + {id}
    requires forall k :: k in s && k != id ==> t[k] == s[k]
    requires id in s ==> s[id].ownerId != other
    requires id in t ==> t[id].ownerId != other
    ensures OwnerView(t, other) == OwnerView(s, other)
  {
    assert OwnerView(t, other).Keys == OwnerView(s, other).Keys;
  }

  /** None of the order calls changes the orders of anyone but the current user. */
  lemma CallsIsolateOwners(s: map<string, Order>, auth: Option<Authentication>, id: string, order: Order, newId: string, clock: Clock, other: string)
    requires newId !in s
    requires CurrentUserId(auth).Ok? ==> other != CurrentUserId(auth).value
    ensures OwnerView(PayOrderStep(s, auth, id).store, other) == OwnerView(s, other)
    ensures OwnerView(CompleteOrderStep(s, auth, id).store, other) == OwnerView(s, other)
    ensures OwnerView(CreateOrderStep(s, auth, order, newId, clock).store, other) == OwnerView(s, other)
  {
    if Owns(s, auth, id) {
      OwnerViewKept(s, PayOrderStep(s, auth, id).store, id, other);
      OwnerViewKept(s, CompleteOrderStep(s, auth, id).store, id, other);
    }
    if CurrentUserId(auth).Ok? {
      OwnerViewKept(s, CreateOrderStep(s, auth, order, newId, clock).store, newId, other);
    }
  }

  /** The life of one order: listed at its table once created, a remaining order once paid,
      and off both lists once completed. */
  lemma {:induction false} OrderLifecycle(s: map<string, Order>, auth: Option<Authentication>, order: Order, newId: string, clock: Clock)
    requires newId !in s
    requires CurrentUserId(auth).Ok?
    ensures
      var owner := CurrentUserId(auth).value;
      var created := CreateOrderStep(s, auth, order, newId, clock).store;
      var paid := PayOrderStep(created, auth, newId).store;
      var done := CompleteOrderStep(paid, auth, newId).store;
      && IsUnpaidAt(created[newId], owner, order.tableId) && !IsRemaining(created[newId], owner)
      && !IsUnpaidAt(paid[newId], owner, order.tableId) && IsRemaining(paid[newId], owner)
      && !IsUnpaidAt(done[newId], owner, order.tableId) && !IsRemaining(done[newId], owner)
  {
    var owner := CurrentUserId(auth).value;
    var created := CreateOrderStep(s, auth, order, newId, clock).store;
    assert Owns(created, auth, newId);
    var paid := PayOrderStep(created, auth, newId).store;
    assert Owns(paid, auth, newId);
  }

  /** An unpaid order can be completed, and stays unpaid. */
  lemma CompleteDoesNotRequirePayment(s: map<string, Order>, auth: Option<Authentication>, id: string)
    requires Owns(s, auth, id) && !s[id].paid
    ensures CompleteOrderStep(s, auth, id).out.Ok?
    ensures !CompleteOrderStep(s, auth, id).store[id].paid
  {
  }

  class OrderService {
    var orders: map<string, Order>

    ghost predicate Valid()
      reads this
    {
      Stored(orders)
    }

    constructor ()
      ensures Valid() && orders == map[]
    {
      orders := map[];
    }

    /** createOrder as written: `newId` is the id the repository generates when the incoming
        order has none; an incoming id is saved over. */
    method CreateOrder(auth: Option<Authentication>, order: Order, newId: string, clock: Clock) returns (r: Result<Order>)
      requires Valid() && newId !in orders
      modifies this
      ensures Valid()
      ensures Step(r, orders) == CreateOrderAsWritten(old(orders), auth, order, newId, clock)
    {
      var current := CurrentUserId(auth);
      if current.Err? {
        r := Err(current.error);
        return;
      }
      var o := order.(ownerId := current.value);
      o := o.(orderId := clock.millis);
      o := o.(paid := false);
      o := o.(completed := false);
      o := o.(createdAt := clock.now);
      if o.orderDate.None? {
        o := o.(orderDate := Some(clock.today));
      }
      if o.orderTime.None? {
        o := o.(orderTime := Some(clock.time));
      }
      var key := if o.id.Some? then o.id.value else newId;
      o := o.(id := Some(key));
      orders := orders[key := o];
      r := Ok(o);
    }

    method GetOrdersByTableId(auth: Option<Authentication>, tableId: int) returns (r: Result<seq<Order>>)
      requires Valid()
      ensures CurrentUserId(auth).Err? ==> r == Err(CurrentUserId(auth).error)
      ensures CurrentUserId(auth).Ok? ==> r.Ok? && NoDup(r.value)
      ensures r.Ok? ==> forall o :: o in r.value <==> o in orders.Values && IsUnpaidAt(o, CurrentUserId(auth).value, tableId)
    {
      var current := CurrentUserId(auth);
      if current.Err? {
        r := Err(current.error);
        return;
      }
      var owner := current.value;
      var found := Select(orders, (o: Order) => IsUnpaidAt(o, owner, tableId));
      r := Ok(found);
    }

    method PayOrder(auth: Option<Authentication>, id: string) returns (r: Result<Order>)
      requires Valid()
      modifies this
      ensures Valid()
      ensures Step(r, orders) == PayOrderStep(old(orders), auth, id)
    {
      var current := CurrentUserId(auth);
      if current.Err? {
        r := Err(current.error);
        return;
      }
      if id !in orders {
        r := Err(ResourceNotFound(OrderNotFound));
        return;
      }
      var order := orders[id];
      if order.ownerId != current.value {
        r := Err(Unauthorized(NotYourOrder));
        return;
      }
      order := order.(paid := true);
      orders := orders[id := order];
      r := Ok(order);
    }

    method GetRemainingOrders(auth: Option<Authentication>) returns (r: Result<seq<Order>>)
      requires Valid()
      ensures CurrentUserId(auth).Err? ==> r == Err(CurrentUserId(auth).error)
      ensures CurrentUserId(auth).Ok? ==> r.Ok? && NoDup(r.value)
      ensures r.Ok? ==> forall o :: o in r.value <==> o in orders.Values && IsRemaining(o, CurrentUserId(auth).value)
    {
      var current := CurrentUserId(auth);
      if current.Err? {
        r := Err(current.error);
        return;
      }
      var owner := current.value;
      var found := Select(orders, (o: Order) => IsRemaining(o, owner));
      r := Ok(found);
    }

    method CompleteOrder(auth: Option<Authentication>, id: string) returns (r: Result<Order>)
      requires Valid()
      modifies this
      ensures Valid()
      ensures Step(r, orders) == CompleteOrderStep(old(orders), auth, id)
    {
      var current := CurrentUserId(auth);
      if current.Err? {
        r := Err(current.error);
        return;
      }
      if id !in orders {
        r := Err(ResourceNotFound(OrderNotFound));
        return;
      }
      var order := orders[id];
      if order.ownerId != current.value {
        r := Err(Unauthorized(NotYourOrder));
        return;
      }
      order := order.(completed := true);
      orders := orders[id := order];
      r := Ok(order);
    }

    /** All of the current user's orders, newest first. */
    method GetAllOrders(auth: Option<Authentication>) returns (r: Result<seq<Order>>)
      requires Valid()
      ensures CurrentUserId(auth).Err? ==> r == Err(CurrentUserId(auth).error)
      ensures CurrentUserId(auth).Ok? ==> r.Ok? && NoDup(r.value)
      ensures r.Ok? ==> forall o :: o in r.value <==> o in orders.Values && o.ownerId == CurrentUserId(auth).value
      ensures r.Ok? ==> forall i, j :: 0 <= i < j < |r.value| ==> r.value[i].createdAt >= r.value[j].createdAt
    {
      var current := CurrentUserId(auth);
      if current.Err? {
        r := Err(current.error);
        return;
      }
      var owner := current.value;
      var found := SelectSorted(orders, (o: Order) => o.ownerId == owner, (o: Order) => -o.createdAt);
      r := Ok(found);
    }
  }
}
