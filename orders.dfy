/**
 * The order service: the `orders`, `participant_orders` and
 * `order_menu_items` tables held in memory, and the reads and writes the
 * service issues against them. Database failures other than the ones the
 * service raises itself are not modelled.
 */
module Orders {
  import opened Wrappers
  import opened Table
  import OM = OrderedMap

  type UserId = string

  datatype OrderStatus = Open | Closed | Canceled

  datatype PaymentStatus = Paid | Unpaid

  /** The columns of an `orders` row (`IOrder`). Times are milliseconds since the epoch. */
  datatype OrderCols = OrderCols(
    title: string,
    storeName: string,
    deadline: int,
    createdAt: int,
    status: OrderStatus,
    createdBy: UserId,
    serviceAndDeliveryFee: Option<real>,
    discountPercentage: Option<real>,
    maxDiscount: Option<real>,
    minOrderForDiscount: Option<real>)

  type Order = Row<OrderCols>

  /** The columns of a `participant_orders` row (`IParticipantOrder`). */
  datatype ParticipantCols = ParticipantCols(
    orderId: Id,
    userId: UserId,
    itemName: string,
    itemPrice: real,
    quantity: int,
    paymentStatus: PaymentStatus)

  type ParticipantOrder = Row<ParticipantCols>

  /** A menu entry as the order form holds it; the price may still be empty. */
  datatype MenuItem = MenuItem(name: string, price: Option<real>)

  /** The columns of an `order_menu_items` row. */
  datatype MenuItemCols = MenuItemCols(orderId: Id, name: string, price: Option<real>)

  /** The order form's value as `createOrder` receives it. */
  datatype OrderForm = OrderForm(
    title: string,
    storeName: string,
    deadline: int,
    menuItems: seq<MenuItem>,
    serviceAndDeliveryFee: Option<real>,
    discountPercentage: Option<real>,
    maxDiscount: Option<real>,
    minOrderForDiscount: Option<real>)

  /** The participant's submission that `addParticipantOrder` receives. */
  datatype ParticipantDraft = ParticipantDraft(
    orderId: Id, userId: UserId, itemName: string, itemPrice: real, quantity: int)

  datatype Error =
    | NotLoggedIn           // `createOrder` without a current user
    | MoreThanOneRow        // `maybeSingle()` found several rows for one (order, user, item)

  // ---------------------------------------------------------------------------
  // Participant orders
  // ---------------------------------------------------------------------------

  /** The (order, user, item) slot a row belongs to. */
  function Slot(c: ParticipantCols): (Id, UserId, string) {
    (c.orderId, c.userId, c.itemName)
  }

  function DraftSlot(d: ParticipantDraft): (Id, UserId, string) {
    (d.orderId, d.userId, d.itemName)
  }

  function SlotOf(d: ParticipantDraft): ParticipantOrder -> bool {
    (row: ParticipantOrder) => Slot(row.cols) == DraftSlot(d)
  }

  /** The rows the lookup in `addParticipantOrder` returns. */
  function Existing(t: Table<ParticipantCols>, d: ParticipantDraft): Table<ParticipantCols> {
    Select(t, SlotOf(d))
  }

  /** The application's invariant: at most one row per (order, user, item). */
  predicate AtMostOnePerSlot(t: Table<ParticipantCols>) {
    forall i, j :: 0 <= i < j < |t| ==> Slot(t[i].cols) != Slot(t[j].cols)
  }

  /** `quantity || 1`: a zero quantity adds one, any other is added as it is; never 0. */
  function AddedQuantity(quantity: int): (q: int)
    ensures q != 0
    ensures quantity != 0 ==> q == quantity
  {
    if quantity == 0 then 1 else quantity
  }

  function WithQuantity(q: int): ParticipantCols -> ParticipantCols {
    (c: ParticipantCols) => c.(quantity := q)
  }

  function WithPaymentStatus(s: PaymentStatus): ParticipantCols -> ParticipantCols {
    (c: ParticipantCols) => c.(paymentStatus := s)
  }

  /** The row `insert(newOrder)` stores; the database assigns the id and the unpaid status. */
  function NewParticipantRow(id: Id, d: ParticipantDraft): ParticipantOrder {
    Row(id, ParticipantCols(d.orderId, d.userId, d.itemName, d.itemPrice, d.quantity, Unpaid))
  }

  /** Changing a quantity or a payment status never moves a row to another slot. */
  lemma {:induction false} UpdateKeepsSlots(t: Table<ParticipantCols>, id: Id, f: ParticipantCols -> ParticipantCols)
    requires forall c :: Slot(f(c)) == Slot(c)
    requires AtMostOnePerSlot(t)
    ensures AtMostOnePerSlot(Update(t, id, f))
  {
    var r := Update(t, id, f);
    forall i | 0 <= i < |t| ensures Slot(r[i].cols) == Slot(t[i].cols) {
      if t[i].id == id {
        assert r[i].cols == f(t[i].cols);
      }
    }
  }

  /** Inserting a row for a slot that has none keeps one row per slot. */
  lemma {:induction false} InsertKeepsSlots(t: Table<ParticipantCols>, freshId: Id, d: ParticipantDraft)
    requires AtMostOnePerSlot(t) && Existing(t, d) == []
    ensures AtMostOnePerSlot(t + [NewParticipantRow(freshId, d)])
  {
    var u := t + [NewParticipantRow(freshId, d)];
    forall i | 0 <= i < |t| ensures Slot(t[i].cols) != DraftSlot(d) {
      assert t[i] in t && t[i] !in Existing(t, d);
    }
    forall i, j | 0 <= i < j < |u| ensures Slot(u[i].cols) != Slot(u[j].cols) {
      assert u[i] == t[i];
    }
  }

  /** `update({ quantity: q }).eq('id', e.id)`. */
  function Merge(t: Table<ParticipantCols>, e: ParticipantOrder, q: int): Table<ParticipantCols> {
    Update(t, e.id, WithQuantity(q))
  }

  /** The quantity of the slot's row after a repeated submission of `d`. */
  function MergedQuantity(e: ParticipantOrder, d: ParticipantDraft): int {
    e.cols.quantity + AddedQuantity(d.quantity)
  }

  /**
   * The table after `addParticipantOrder(d)`: an existing row of the same
   * slot has its quantity raised, otherwise a new row with id `freshId` is
   * inserted; two existing rows make the lookup fail.
   */
  function AddParticipant(t: Table<ParticipantCols>, freshId: Id, d: ParticipantDraft)
    : (r: Result<Table<ParticipantCols>, Error>)
    ensures r.Failure? <==> |Existing(t, d)| > 1
    ensures r.Failure? ==> r.error == MoreThanOneRow
  {
    var existing := Existing(t, d);
    if |existing| > 1 then Failure(MoreThanOneRow)
    else if |existing| == 1 then Success(Merge(t, existing[0], MergedQuantity(existing[0], d)))
    else
      Success(t + [NewParticipantRow(freshId, d)])
  }

  /** A repeated submission for a slot updates the quantity of the slot's one row. */
  lemma {:induction false} AddParticipantMerges(t: Table<ParticipantCols>, freshId: Id, d: ParticipantDraft)
    requires |Existing(t, d)| == 1
    ensures var e := Existing(t, d)[0];
      && e in t && Slot(e.cols) == DraftSlot(d)
      && AddParticipant(t, freshId, d) == Success(Merge(t, e, MergedQuantity(e, d)))
  {
    assert Existing(t, d)[0] in Existing(t, d);
  }

  /** Setting the quantity of a row of the table changes that row's columns and nothing else. */
  lemma {:induction false} MergeSetsQuantity(t: Table<ParticipantCols>, e: ParticipantOrder, q: int)
    requires IdsUnique(t) && e in t
    ensures var u := Merge(t, e, q);
      && |u| == |t| && Ids(u) == Ids(t)
      && Lookup(u, e.id) == Some(e.cols.(quantity := q))
      && (forall id :: id != e.id ==> Lookup(u, id) == Lookup(t, id))
  {
    var i :| 0 <= i < |t| && t[i] == e;
    LookupRow(t, i);
    UpdateLookup(t, e.id, WithQuantity(q));
  }

  /** A first submission for a slot appends exactly one row and keeps every old row. */
  lemma {:induction false} AddParticipantInserts(t: Table<ParticipantCols>, freshId: Id, d: ParticipantDraft)
    requires IdsUnique(t) && freshId !in Ids(t)
    requires |Existing(t, d)| == 0
    ensures var r := AddParticipant(t, freshId, d);
      && r.Success? && r.value == t + [NewParticipantRow(freshId, d)]
      && Ids(r.value) == Ids(t) + {freshId} && IdsUnique(r.value)
  {
    var row := NewParticipantRow(freshId, d);
    IdsOfAppend(t, [row]);
    assert Ids([row]) == {freshId};
  }

  /** `addParticipantOrder` keeps one row per (order, user, item). */
  lemma {:induction false} AddParticipantKeepsOnePerSlot(t: Table<ParticipantCols>, freshId: Id, d: ParticipantDraft)
    requires AtMostOnePerSlot(t)
    ensures AddParticipant(t, freshId, d).Success? ==> AtMostOnePerSlot(AddParticipant(t, freshId, d).value)
  {
    var existing := Existing(t, d);
    if |existing| == 1 {
      var e := existing[0];
      UpdateKeepsSlots(t, e.id, WithQuantity(MergedQuantity(e, d)));
    } else if |existing| == 0 {
      assert existing == [];
      InsertKeepsSlots(t, freshId, d);
    }
  }

  /**
   * The table after `updateParticipantOrder(id, q)`: a quantity of zero or
   * less deletes the row, any other quantity replaces that row's quantity.
   */
  function ChangeQuantity(t: Table<ParticipantCols>, id: Id, q: int): (r: Table<ParticipantCols>)
    ensures q <= 0 ==> r == Delete(t, id)
    ensures q > 0 ==>
      && |r| == |t| && Ids(r) == Ids(t)
      && Lookup(r, id) == (match Lookup(t, id) case Some(c) => Some(c.(quantity := q)) case None => None)
      && (forall other :: other != id ==> Lookup(r, other) == Lookup(t, other))
    ensures IdsUnique(t) ==> IdsUnique(r)
    ensures AtMostOnePerSlot(t) ==> AtMostOnePerSlot(r)
  {
    if q <= 0 then
      var r := Delete(t, id);
      assert AtMostOnePerSlot(t) ==> AtMostOnePerSlot(r) by {
        if AtMostOnePerSlot(t) {
          DeleteKeepsAtMostOnePerSlot(t, id);
        }
      }
      r
    else
      UpdateLookup(t, id, WithQuantity(q));
      UpdateKeepsIdsUnique(t, id, WithQuantity(q));
      var r := Update(t, id, WithQuantity(q));
      assert AtMostOnePerSlot(t) ==> AtMostOnePerSlot(r) by {
        if AtMostOnePerSlot(t) {
          UpdateKeepsSlots(t, id, WithQuantity(q));
        }
      }
      r
  }

  lemma {:induction false} DeleteKeepsAtMostOnePerSlot(t: Table<ParticipantCols>, id: Id)
    requires AtMostOnePerSlot(t)
    ensures AtMostOnePerSlot(Delete(t, id))
  {
    if t != [] {
      DeleteKeepsAtMostOnePerSlot(t[1..], id);
      var rest := Delete(t[1..], id);
      forall j | 0 <= j < |rest| ensures Slot(t[0].cols) != Slot(rest[j].cols) {
        assert rest[j] in t[1..];
      }
    }
  }

  /** The table after `updatePaymentStatus(id, s)`: only that row's payment status changes. */
  function SetPaymentStatus(t: Table<ParticipantCols>, id: Id, s: PaymentStatus): (r: Table<ParticipantCols>)
    ensures |r| == |t| && Ids(r) == Ids(t)
    ensures Lookup(r, id) == (match Lookup(t, id) case Some(c) => Some(c.(paymentStatus := s)) case None => None)
    ensures forall other :: other != id ==> Lookup(r, other) == Lookup(t, other)
    ensures IdsUnique(t) ==> IdsUnique(r)
    ensures AtMostOnePerSlot(t) ==> AtMostOnePerSlot(r)
  {
    UpdateLookup(t, id, WithPaymentStatus(s));
    UpdateKeepsIdsUnique(t, id, WithPaymentStatus(s));
    var r := Update(t, id, WithPaymentStatus(s));
    assert AtMostOnePerSlot(t) ==> AtMostOnePerSlot(r) by {
      if AtMostOnePerSlot(t) {
        UpdateKeepsSlots(t, id, WithPaymentStatus(s));
      }
    }
    r
  }

  /** The status the order page's toggle asks for: `PAID` becomes `UNPAID`, anything else `PAID`. */
  function Toggled(s: PaymentStatus): (r: PaymentStatus)
    ensures r != s
    ensures r == Paid <==> s == Unpaid
  {
    match s
    case Paid => Unpaid
    case Unpaid => Paid
  }

  // ---------------------------------------------------------------------------
  // Orders
  // ---------------------------------------------------------------------------

  function WithStatus(s: OrderStatus): OrderCols -> OrderCols {
    (c: OrderCols) => c.(status := s)
  }

  /** The table after `closeOrder`/`cancelOrder`: the order's status is `s`, whatever it was. */
  function SetOrderStatus(t: Table<OrderCols>, id: Id, s: OrderStatus): (r: Table<OrderCols>)
    ensures |r| == |t| && Ids(r) == Ids(t)
    ensures id in Ids(t) ==> Lookup(r, id).Some? && Lookup(r, id).value.status == s
    ensures Lookup(r, id) == (match Lookup(t, id) case Some(c) => Some(c.(status := s)) case None => None)
    ensures forall other :: other != id ==> Lookup(r, other) == Lookup(t, other)
    ensures IdsUnique(t) ==> IdsUnique(r)
  {
    UpdateLookup(t, id, WithStatus(s));
    UpdateKeepsIdsUnique(t, id, WithStatus(s));
    Update(t, id, WithStatus(s))
  }

  /** The `orders` row `createOrder` inserts: the form's fields, status OPEN, created by `user`. */
  function NewOrderRow(id: Id, form: OrderForm, user: UserId, now: int): (o: Order)
    ensures o.id == id && o.cols.status == Open && o.cols.createdBy == user
    ensures o.cols.title == form.title && o.cols.storeName == form.storeName && o.cols.deadline == form.deadline && o.cols.createdAt == now
    ensures o.cols.serviceAndDeliveryFee == form.serviceAndDeliveryFee
    ensures o.cols.discountPercentage == form.discountPercentage
    ensures o.cols.maxDiscount == form.maxDiscount
    ensures o.cols.minOrderForDiscount == form.minOrderForDiscount
  {
    Row(id, OrderCols(form.title, form.storeName, form.deadline, now, Open, user,
                      form.serviceAndDeliveryFee, form.discountPercentage,
                      form.maxDiscount, form.minOrderForDiscount))
  }

  /** The `order_menu_items` rows `createOrder` inserts: each form entry stamped with the order id. */
  function MenuRows(items: seq<MenuItem>, orderId: Id, firstId: Id): (rows: Table<MenuItemCols>)
    ensures |rows| == |items|
    ensures forall i :: 0 <= i < |rows| ==>
      rows[i] == Row(firstId + i, MenuItemCols(orderId, items[i].name, items[i].price))
  {
    if items == [] then []
    else [Row(firstId, MenuItemCols(orderId, items[0].name, items[0].price))]
         + MenuRows(items[1..], orderId, firstId + 1)
  }

  /** The menu rows take the consecutive ids from `firstId` on. */
  lemma {:induction false} MenuRowsFresh(items: seq<MenuItem>, orderId: Id, firstId: Id)
    ensures var rows := MenuRows(items, orderId, firstId);
      IdsUnique(rows) && forall id :: id in Ids(rows) ==> firstId <= id < firstId + |items|
  {
    var rows := MenuRows(items, orderId, firstId);
    forall id | id in Ids(rows) ensures firstId <= id < firstId + |items| {
      var row :| row in rows && row.id == id;
    }
  }

  predicate IsFinished(s: OrderStatus) {
    s == Closed || s == Canceled
  }

  function Deadline(c: OrderCols): int { c.deadline }

  function CreatedAt(c: OrderCols): int { c.createdAt }

  predicate SortedDesc(s: seq<Order>, key: OrderCols -> int) {
    forall i, j :: 0 <= i < j < |s| ==> key(s[i].cols) >= key(s[j].cols)
  }

  /** Puts `x` in front of the first element whose key is not larger (keeps equal keys in input order). */
  function InsertDesc(x: Order, s: seq<Order>, key: OrderCols -> int): (r: seq<Order>)
    requires SortedDesc(s, key)
    ensures SortedDesc(r, key)
    ensures |r| == |s| + 1 && (r[0] == x || (s != [] && r[0] == s[0]))
    ensures multiset(r) == multiset(s) + multiset{x}
  {
    if s == [] || key(s[0].cols) <= key(x.cols) then [x] + s
    else
      var rest := InsertDesc(x, s[1..], key);
      assert s == [s[0]] + s[1..];
      ConsSorted(s[0], rest, key);
      [s[0]] + rest
  }

  /** An element whose key is at least the head's keeps a sorted sequence sorted. */
  lemma {:induction false} ConsSorted(h: Order, s: seq<Order>, key: OrderCols -> int)
    requires SortedDesc(s, key) && (s == [] || key(s[0].cols) <= key(h.cols))
    ensures SortedDesc([h] + s, key)
  {
    var r := [h] + s;
    forall i, j | 0 <= i < j < |r| ensures key(r[i].cols) >= key(r[j].cols) {
      if i > 0 {
        assert r[i] == s[i - 1] && r[j] == s[j - 1];
      } else {
        assert r[j] == s[j - 1];
      }
    }
  }

  /** A stable sort by descending `key`, as `Array.prototype.sort` with comparator `key(b) - key(a)`. */
  function SortDesc(s: seq<Order>, key: OrderCols -> int): (r: seq<Order>)
    ensures SortedDesc(r, key)
    ensures multiset(r) == multiset(s)
  {
    if s == [] then []
    else
      assert s == [s[0]] + s[1..];
      InsertDesc(s[0], SortDesc(s[1..], key), key)
  }

  /** Sorting neither adds nor drops an order. */
  lemma {:induction false} SortKeepsMembers(s: seq<Order>, key: OrderCols -> int)
    ensures forall o :: o in SortDesc(s, key) <==> o in s
  {
    var r := SortDesc(s, key);
    assert multiset(r) == multiset(s);
    forall o ensures o in r <==> o in s {
      assert o in r <==> o in multiset(r);
      assert o in s <==> o in multiset(s);
    }
  }

  /** Sorting keeps ids unique. */
  lemma {:induction false} SortKeepsIdsUnique(s: seq<Order>, key: OrderCols -> int)
    requires IdsUnique(s)
    ensures IdsUnique(SortDesc(s, key))
  {
    if s != [] {
      var tail := SortDesc(s[1..], key);
      assert SortDesc(s, key) == InsertDesc(s[0], tail, key);
      SortKeepsIdsUnique(s[1..], key);
      SortKeepsMembers(s[1..], key);
      HeadIdNotInTail(s);
      assert s[0].id !in Ids(tail);
      InsertKeepsIdsUnique(s[0], tail, key);
    }
  }

  lemma {:induction false} InsertKeepsIdsUnique(x: Order, s: seq<Order>, key: OrderCols -> int)
    requires SortedDesc(s, key) && IdsUnique(s) && x.id !in Ids(s)
    ensures IdsUnique(InsertDesc(x, s, key))
  {
    if !(s == [] || key(s[0].cols) <= key(x.cols)) {
      assert s == [s[0]] + s[1..];
      assert Ids(s) == {s[0].id} + Ids(s[1..]);
      InsertKeepsIdsUnique(x, s[1..], key);
      HeadIdNotInTail(s);
      var rest := InsertDesc(x, s[1..], key);
      forall j | 0 <= j < |rest| ensures rest[j].id != s[0].id {
        assert rest[j] in multiset(rest);
        assert rest[j] == x || rest[j] in s[1..];
      }
    }
  }

  /** `new Map(orders.map(o => [o.id, o]))`: one entry per id, at its first position, holding the last row. */
  function ById(s: seq<Order>): (m: OM.OrderedMap<Id, Order>)
    ensures OM.Distinct(OM.Keys(m))
    ensures forall i :: 0 <= i < |m| ==> m[i].0 == m[i].1.id && m[i].1 in s
    ensures forall o :: o in s ==> o.id in OM.Keys(m)
  {
    if s == [] then []
    else
      var prefix := s[..|s| - 1];
      var last := s[|s| - 1];
      assert s == prefix + [last];
      OM.SetKeys(ById(prefix), last.id, last);
      OM.SetKeysDistinct(ById(prefix), last.id, last);
      OM.SetEntries(ById(prefix), last.id, last);
      OM.Set(ById(prefix), last.id, last)
  }

  /** The orders of `s` with duplicate ids removed. */
  function Deduplicated(s: seq<Order>): (r: seq<Order>)
    ensures forall o :: o in r ==> o in s
    ensures forall o :: o in s ==> exists i :: 0 <= i < |r| && r[i].id == o.id
    ensures forall i, j :: 0 <= i < j < |r| ==> r[i].id != r[j].id
  {
    var m := ById(s);
    var r := OM.Values(m);
    assert forall i :: 0 <= i < |m| ==> r[i].id == OM.Keys(m)[i];
    r
  }

  // ---------------------------------------------------------------------------
  // The service
  // ---------------------------------------------------------------------------

  class OrderService {
    var orders: Table<OrderCols>
    var participantOrders: Table<ParticipantCols>
    var menuItems: Table<MenuItemCols>
    /** The next primary key the database hands out. */
    var nextId: nat

    ghost predicate Valid()
      reads this
    {
      && IdsUnique(orders) && IdsUnique(participantOrders) && IdsUnique(menuItems)
      && IdsBelow(orders, nextId) && IdsBelow(participantOrders, nextId) && IdsBelow(menuItems, nextId)
    }

    constructor ()
      ensures Valid()
      ensures orders == [] && participantOrders == [] && menuItems == []
    {
      orders, participantOrders, menuItems := [], [], [];
      nextId := 0;
    }

    /** `addParticipantOrder`: merge into the slot's row, or insert a new one. */
    method AddParticipantOrder(d: ParticipantDraft) returns (r: Result<(), Error>)
      requires Valid()
      modifies this
      ensures Valid()
      ensures var next := AddParticipant(old(participantOrders), old(nextId), d);
        && (r.Failure? <==> next.Failure?)
        && (r.Failure? ==> r.error == next.error && participantOrders == old(participantOrders))
        && (next.Success? ==> participantOrders == next.value)
      ensures orders == old(orders) && menuItems == old(menuItems)
      ensures nextId == if r.Success? && |Existing(old(participantOrders), d)| == 0 then old(nextId) + 1 else old(nextId)
      ensures old(AtMostOnePerSlot(participantOrders)) ==> AtMostOnePerSlot(participantOrders)
    {
      var existing := Existing(participantOrders, d);
      if AtMostOnePerSlot(participantOrders) {
        AddParticipantKeepsOnePerSlot(participantOrders, nextId, d);
      }
      if |existing| > 1 {
        return Failure(MoreThanOneRow);
      }
      if |existing| == 1 {
        AddParticipantMerges(participantOrders, nextId, d);
        var q := MergedQuantity(existing[0], d);
        MergeSetsQuantity(participantOrders, existing[0], q);
        participantOrders := Merge(participantOrders, existing[0], q);
      } else {
        AddParticipantInserts(participantOrders, nextId, d);
        participantOrders := participantOrders + [NewParticipantRow(nextId, d)];
        nextId := nextId + 1;
      }
      r := Success(());
    }

    /** `createOrder`: rejected without a current user; otherwise inserts the order and its menu. */
    method CreateOrder(currentUser: Option<UserId>, form: OrderForm, now: int) returns (r: Result<Order, Error>)
      requires Valid()
      modifies this
      ensures Valid()
      ensures currentUser.None? ==>
        && r == Failure(NotLoggedIn) && orders == old(orders) && menuItems == old(menuItems)
        && nextId == old(nextId)
      ensures currentUser.Some? ==>
        && r.Success?
        && r.value == NewOrderRow(old(nextId), form, currentUser.value, now)
        && r.value.id !in old(Ids(orders))
        && orders == old(orders) + [r.value]
        && menuItems == old(menuItems) + MenuRows(form.menuItems, r.value.id, old(nextId) + 1)
        && nextId == old(nextId) + 1 + |form.menuItems|
      ensures participantOrders == old(participantOrders)
    {
      if currentUser.None? {
        return Failure(NotLoggedIn);
      }
      var id := nextId;
      var o := NewOrderRow(id, form, currentUser.value, now);
      var rows := MenuRows(form.menuItems, o.id, id + 1);
      assert o.id == id && Ids([o]) == {id};
      MenuRowsFresh(form.menuItems, o.id, id + 1);
      AppendFresh(orders, [o], id, id + 1);
      AppendFresh(menuItems, rows, id + 1, id + 1 + |rows|);
      var newOrders, newMenu := orders + [o], menuItems + rows;
      orders, menuItems, nextId := newOrders, newMenu, id + 1 + |rows|;
      r := Success(o);
    }

    /** `deleteParticipantOrder`. */
    method DeleteParticipantOrder(id: Id)
      requires Valid()
      modifies this
      ensures Valid()
      ensures participantOrders == Delete(old(participantOrders), id)
      ensures orders == old(orders) && menuItems == old(menuItems) && nextId == old(nextId)
      ensures old(AtMostOnePerSlot(participantOrders)) ==> AtMostOnePerSlot(participantOrders)
    {
      if AtMostOnePerSlot(participantOrders) {
        DeleteKeepsAtMostOnePerSlot(participantOrders, id);
      }
      DeleteLookup(participantOrders, id);
      participantOrders := Delete(participantOrders, id);
    }

    /** `updateParticipantOrder`: a quantity of zero or less is a delete. */
    method UpdateParticipantOrder(id: Id, newQuantity: int)
      requires Valid()
      modifies this
      ensures Valid()
      ensures participantOrders == ChangeQuantity(old(participantOrders), id, newQuantity)
      ensures orders == old(orders) && menuItems == old(menuItems) && nextId == old(nextId)
      ensures old(AtMostOnePerSlot(participantOrders)) ==> AtMostOnePerSlot(participantOrders)
    {
      if newQuantity <= 0 {
        DeleteParticipantOrder(id);
        return;
      }
      UpdateLookup(participantOrders, id, WithQuantity(newQuantity));
      UpdateKeepsIdsUnique(participantOrders, id, WithQuantity(newQuantity));
      participantOrders := Update(participantOrders, id, WithQuantity(newQuantity));
    }

    /** `updatePaymentStatus`. */
    method UpdatePaymentStatus(id: Id, newStatus: PaymentStatus)
      requires Valid()
      modifies this
      ensures Valid()
      ensures participantOrders == SetPaymentStatus(old(participantOrders), id, newStatus)
      ensures orders == old(orders) && menuItems == old(menuItems) && nextId == old(nextId)
    {
      participantOrders := SetPaymentStatus(participantOrders, id, newStatus);
    }

    /** `closeOrder`. */
    method CloseOrder(id: Id)
      requires Valid()
      modifies this
      ensures Valid()
      ensures orders == SetOrderStatus(old(orders), id, Closed)
      ensures participantOrders == old(participantOrders) && menuItems == old(menuItems) && nextId == old(nextId)
    {
      orders := SetOrderStatus(orders, id, Closed);
    }

    /** `cancelOrder`. */
    method CancelOrder(id: Id)
      requires Valid()
      modifies this
      ensures Valid()
      ensures orders == SetOrderStatus(old(orders), id, Canceled)
      ensures participantOrders == old(participantOrders) && menuItems == old(menuItems) && nextId == old(nextId)
    {
      orders := SetOrderStatus(orders, id, Canceled);
    }

    /** `getActiveOrders`: the open orders whose deadline is after `now`, newest first. */
    method GetActiveOrders(now: int) returns (r: seq<Order>)
      requires Valid()
      ensures forall o :: o in r <==> o in orders && o.cols.status == Open && o.cols.deadline > now
      ensures SortedDesc(r, CreatedAt)
      ensures IdsUnique(r)
    {
      var open := Select(orders, ActiveAt(now));
      r := SortDesc(open, CreatedAt);
      SortKeepsMembers(open, CreatedAt);
      SortKeepsIdsUnique(open, CreatedAt);
    }

    /**
     * `getClosedOrdersForUser`: the closed or canceled orders the user created
     * or took part in, each once, latest deadline first.
     */
    method GetClosedOrdersForUser(currentUser: Option<UserId>) returns (r: seq<Order>)
      requires Valid()
      ensures currentUser.None? ==> r == []
      ensures forall o :: o in r ==> o in orders && IsFinished(o.cols.status)
      ensures currentUser.Some? ==> forall o :: o in orders && IsFinished(o.cols.status) ==>
        ((o.cols.createdBy == currentUser.value || TookPart(participantOrders, currentUser.value, o.id))
         <==> o in r)
      ensures IdsUnique(r)
      ensures SortedDesc(r, Deadline)
    {
      if currentUser.None? {
        return [];
      }
      var user := currentUser.value;
      var created := Select(orders, FinishedCreatedBy(user));
      var orderIds := OrderIdsOf(Select(participantOrders, LinesOf(user)));
      var participated: seq<Order> := [];
      if |orderIds| > 0 {
        participated := Select(orders, FinishedAmong(orderIds));
      }
      var unique := Deduplicated(created + participated);
      r := SortDesc(unique, Deadline);
      ClosedOrdersSelected(orders, participantOrders, user, participated);
      SortKeepsMembers(unique, Deadline);
      SortKeepsIdsUnique(unique, Deadline);
    }
  }

  function ActiveAt(now: int): Order -> bool {
    (o: Order) => o.cols.status == Open && o.cols.deadline > now
  }

  function FinishedCreatedBy(user: UserId): Order -> bool {
    (o: Order) => IsFinished(o.cols.status) && o.cols.createdBy == user
  }

  function LinesOf(user: UserId): ParticipantOrder -> bool {
    (p: ParticipantOrder) => p.cols.userId == user
  }

  function FinishedAmong(ids: seq<Id>): Order -> bool {
    (o: Order) => IsFinished(o.cols.status) && o.id in ids
  }

  /** The order ids collected from the user's line items are exactly the orders the user took part in. */
  lemma {:induction false} ParticipatedIds(t: Table<ParticipantCols>, user: UserId, id: Id)
    ensures id in OrderIdsOf(Select(t, LinesOf(user))) <==> TookPart(t, user, id)
  {
    var mine := Select(t, LinesOf(user));
    var ids := OrderIdsOf(mine);
    if TookPart(t, user, id) {
      var i :| 0 <= i < |t| && t[i].cols.userId == user && t[i].cols.orderId == id;
      assert t[i] in mine;
      var k :| 0 <= k < |mine| && mine[k] == t[i];
      assert ids[k] == id;
    }
    if id in ids {
      var k :| 0 <= k < |ids| && ids[k] == id;
      assert mine[k] in mine;
      var i :| 0 <= i < |t| && t[i] == mine[k];
    }
  }

  /** The merged, deduplicated query results hold exactly the qualifying orders. */
  lemma {:induction false} ClosedOrdersSelected(orders: Table<OrderCols>, t: Table<ParticipantCols>, user: UserId,
                             participated: seq<Order>)
    requires IdsUnique(orders)
    requires var ids := OrderIdsOf(Select(t, LinesOf(user)));
      participated == if |ids| > 0 then Select(orders, FinishedAmong(ids)) else []
    ensures var unique := Deduplicated(Select(orders, FinishedCreatedBy(user)) + participated);
      && IdsUnique(unique)
      && (forall o :: o in unique ==> o in orders && IsFinished(o.cols.status))
      && (forall o :: o in orders && IsFinished(o.cols.status) ==>
            ((o.cols.createdBy == user || TookPart(t, user, o.id)) <==> o in unique))
  {
    var all := Select(orders, FinishedCreatedBy(user)) + participated;
    forall o | o in orders && IsFinished(o.cols.status)
      ensures (o.cols.createdBy == user || TookPart(t, user, o.id)) <==> o in Deduplicated(all)
    {
      ClosedOrderSelected(orders, t, user, participated, o);
    }
  }

  lemma {:induction false} ClosedOrderSelected(orders: Table<OrderCols>, t: Table<ParticipantCols>, user: UserId,
                            participated: seq<Order>, o: Order)
    requires IdsUnique(orders)
    requires var ids := OrderIdsOf(Select(t, LinesOf(user)));
      participated == if |ids| > 0 then Select(orders, FinishedAmong(ids)) else []
    requires o in orders && IsFinished(o.cols.status)
    ensures (o.cols.createdBy == user || TookPart(t, user, o.id))
            <==> o in Deduplicated(Select(orders, FinishedCreatedBy(user)) + participated)
  {
    var all := Select(orders, FinishedCreatedBy(user)) + participated;
    ParticipatedIds(t, user, o.id);
    assert (o.cols.createdBy == user || TookPart(t, user, o.id)) <==> o in all;
    DeduplicatedKeeps(orders, all, o);
  }

  /** Rows of one table lose nothing to deduplication. */
  lemma {:induction false} DeduplicatedKeeps(orders: Table<OrderCols>, all: seq<Order>, o: Order)
    requires IdsUnique(orders) && o in orders
    requires forall x :: x in all ==> x in orders
    ensures o in all <==> o in Deduplicated(all)
  {
    var unique := Deduplicated(all);
    if o in all {
      var k :| 0 <= k < |unique| && unique[k].id == o.id;
      SameIdSameRow(orders, unique[k], o);
    }
  }

  /** The user has a line item in the order. */
  predicate TookPart(t: Table<ParticipantCols>, user: UserId, orderId: Id) {
    exists i :: 0 <= i < |t| && t[i].cols.userId == user && t[i].cols.orderId == orderId
  }

  /** `participatedOrderIds.map(p => p.order_id)`. */
  function OrderIdsOf(t: Table<ParticipantCols>): (ids: seq<Id>)
    ensures |ids| == |t|
    ensures forall i :: 0 <= i < |t| ==> ids[i] == t[i].cols.orderId
  {
    if t == [] then [] else [t[0].cols.orderId] + OrderIdsOf(t[1..])
  }

  lemma {:induction false} SameIdSameRow(t: Table<OrderCols>, a: Order, b: Order)
    requires IdsUnique(t) && a in t && b in t && a.id == b.id
    ensures a == b
  {
    var i :| 0 <= i < |t| && t[i] == a;
    var j :| 0 <= j < |t| && t[j] == b;
  }
}
