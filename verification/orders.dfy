/** Checkout and the order queries. Checkout runs as one transaction: read the caller's cart
    priced at the products' current prices, write one order and one order item per cart line,
    empty the caller's cart, commit; any statement that throws rolls all of it back. */
module Orders {
  import opened Wrappers
  import opened Seqs
  import opened Sorting
  import opened Js
  import opened Db

  /** A cart line as checkout reads it: the cart row joined with its product's price. */
  datatype CartLine = CartLine(productId: int, quantity: int, price: int)

  /** The product with id `id`; ids are the primary key, so the join finds at most one. */
  function ProductOf(products: seq<Product>, id: int): (r: Option<Product>)
    ensures r.Some? ==> r.value in products && r.value.id == id
    ensures r.None? ==> forall i :: 0 <= i < |products| ==> products[i].id != id
  {
    match Find(products, (p: Product) => p.id == id)
    case None => None
    case Some(k) => Some(products[k])
  }

  /** The cart rows of `userId` joined with the products they name, in table order. A row whose
      product no longer exists drops out of the inner join. */
  function LinesOf(items: seq<CartItem>, products: seq<Product>, userId: Option<int>)
    : (r: seq<CartLine>)
    ensures |r| <= Count(items, (c: CartItem) => Is(c.userId, userId))
  {
    if |items| == 0 then []
    else
      var rest := LinesOf(items[1..], products, userId);
      if !Is(items[0].userId, userId) then rest
      else
        match ProductOf(products, items[0].productId)
        case None => rest
        case Some(p) => [CartLine(items[0].productId, items[0].quantity, p.price)] + rest
  }

  /** Every cart row of the user names an existing product. */
  predicate CartReferencesProducts(s: Store, userId: Option<int>) {
    forall i :: 0 <= i < |s.cart| && Is(s.cart[i].userId, userId) ==>
      ProductOf(s.products, s.cart[i].productId).Some?
  }

  /** When the cart refers only to existing products, checkout reads one line per cart row. */
  lemma {:induction false} LinesOfAllRows(items: seq<CartItem>, products: seq<Product>,
                                          userId: Option<int>)
    requires forall i :: 0 <= i < |items| && Is(items[i].userId, userId) ==>
               ProductOf(products, items[i].productId).Some?
    ensures |LinesOf(items, products, userId)| == Count(items, (c: CartItem) => Is(c.userId, userId))
  {
    if |items| > 0 {
      LinesOfAllRows(items[1..], products, userId);
    }
  }

  /** Every line read is a cart row of the user, carrying the row's product and quantity and the
      product's current price. */
  lemma {:induction false} LinesOfRows(items: seq<CartItem>, products: seq<Product>,
                                       userId: Option<int>, k: nat)
    requires k < |LinesOf(items, products, userId)|
    ensures var line := LinesOf(items, products, userId)[k];
      exists c :: c in items && Is(c.userId, userId) && ProductOf(products, c.productId).Some? &&
                  line == CartLine(c.productId, c.quantity, ProductOf(products, c.productId).value.price)
    decreases |items|
  {
    assert |items| > 0;
    var rest := LinesOf(items[1..], products, userId);
    var kept := Is(items[0].userId, userId) && ProductOf(products, items[0].productId).Some?;
    if kept {
      var head := CartLine(items[0].productId, items[0].quantity,
                           ProductOf(products, items[0].productId).value.price);
      assert LinesOf(items, products, userId) == [head] + rest;
      if k == 0 {
        assert items[0] in items;
      } else {
        LinesOfRows(items[1..], products, userId, k - 1);
        assert LinesOf(items, products, userId)[k] == rest[k - 1];
        assert forall c :: c in items[1..] ==> c in items;
      }
    } else {
      assert LinesOf(items, products, userId) == rest;
      LinesOfRows(items[1..], products, userId, k);
      assert forall c :: c in items[1..] ==> c in items;
    }
  }

  /** The sum of price × quantity, from the last line backwards: the reference definition. */
  function Sum(lines: seq<CartLine>): int {
    if |lines| == 0 then 0
    else Sum(lines[..|lines| - 1]) + lines[|lines| - 1].price * lines[|lines| - 1].quantity
  }

  /** `lines.reduce((sum, item) => sum + item.price * item.quantity, acc)`: a left fold. */
  function Reduce(lines: seq<CartLine>, acc: int): int {
    if |lines| == 0 then acc
    else Reduce(lines[1..], acc + lines[0].price * lines[0].quantity)
  }

  /** The fold computes the sum. */
  lemma {:induction false} ReduceIsSum(lines: seq<CartLine>, acc: int)
    ensures Reduce(lines, acc) == acc + Sum(lines)
  {
    if |lines| > 0 {
      ReduceIsSum(lines[1..], acc + lines[0].price * lines[0].quantity);
      SumCons(lines);
    }
  }

  /** Summing a sequence splits off its first line. */
  lemma {:induction false} SumCons(lines: seq<CartLine>)
    requires |lines| > 0
    ensures Sum(lines) == lines[0].price * lines[0].quantity + Sum(lines[1..])
  {
    if |lines| > 1 {
      var n := |lines|;
      assert lines[1..][..n - 2] == lines[..n - 1][1..];
      SumCons(lines[..n - 1]);
      assert lines[1..][n - 2] == lines[n - 1];
    }
  }

  /** The order total: what the checkout computes. */
  function TotalPrice(lines: seq<CartLine>): (t: int)
    ensures t == Sum(lines)
  {
    ReduceIsSum(lines, 0);
    Reduce(lines, 0)
  }

  /** The request body of a checkout. */
  datatype CheckoutBody = CheckoutBody(userId: Val, paymentMethod: Val, address: Val, phone: Val)

  /** The statements checkout executes, each of which may throw. `InsertItem(k)` is the insert
      of the order item for cart line `k`. */
  datatype CheckoutStep = Connect | Begin | ReadCart | InsertOrder | InsertItem(k: nat) | ClearCart
                        | Commit

  /** What checkout returns: the new order id, an error object, or a thrown error after the
      rollback. */
  datatype CheckoutResult = Placed(orderId: int) | Refused(error: string) | Thrown(at: CheckoutStep)

  /** The order items written for `lines`, for order `orderId`, with consecutive fresh ids. */
  function ItemsFor(lines: seq<CartLine>, orderId: int, firstId: int): (r: seq<OrderItem>)
    ensures |r| == |lines|
    ensures forall k :: 0 <= k < |lines| ==>
              r[k] == OrderItem(firstId + k, orderId, lines[k].productId, lines[k].quantity,
                                lines[k].price)
  {
    seq(|lines|, k requires 0 <= k < |lines| =>
      OrderItem(firstId + k, orderId, lines[k].productId, lines[k].quantity, lines[k].price))
  }

  /** The sum of price × quantity over order items. */
  function ItemsTotal(items: seq<OrderItem>): int {
    if |items| == 0 then 0 else items[0].price * items[0].quantity + ItemsTotal(items[1..])
  }

  /** The items written for the lines add up to the lines' sum. */
  lemma {:induction false} ItemsTotalOfItemsFor(lines: seq<CartLine>, orderId: int, firstId: int)
    ensures ItemsTotal(ItemsFor(lines, orderId, firstId)) == Sum(lines)
  {
    if |lines| > 0 {
      var items := ItemsFor(lines, orderId, firstId);
      ItemsTotalOfItemsFor(lines[1..], orderId, firstId + 1);
      assert items[1..] == ItemsFor(lines[1..], orderId, firstId + 1);
      SumCons(lines);
    }
  }

  /** Whether a fault at `step` is ever reached when the cart has `n` lines. */
  predicate Reached(step: CheckoutStep, n: nat) {
    !step.InsertItem? || step.k < n
  }

  const MissingFields := "Missing required fields"
  const InvalidUserId := "Invalid user ID"
  const EmptyCart := "Cart is empty"

  /** The request check of checkout: the error it refuses with, if any. All four fields must be
      truthy, and the user id must read as an integer. */
  function Validate(b: CheckoutBody): (e: Option<string>)
    ensures !(Truthy(b.userId) && Truthy(b.paymentMethod) && Truthy(b.address) && Truthy(b.phone)) ==>
              e == Some(MissingFields)
    ensures (Truthy(b.userId) && Truthy(b.paymentMethod) && Truthy(b.address) && Truthy(b.phone) &&
             ParseInt(b.userId).None?) ==> e == Some(InvalidUserId)
    ensures e.None? ==> Truthy(b.userId) && ParseInt(b.userId).Some?
  {
    if !(Truthy(b.userId) && Truthy(b.paymentMethod) && Truthy(b.address) && Truthy(b.phone)) then
      Some(MissingFields)
    else if ParseInt(b.userId).None? then Some(InvalidUserId)
    else None
  }

  /** The part of checkout after the request check: read the cart, then write everything or, on
      a throw, nothing. */
  function Transaction(s: Store, b: CheckoutBody, fault: Option<CheckoutStep>)
    : (r: (Store, CheckoutResult))
    requires Truthy(b.userId)
    ensures r.1.Thrown? ==> r.0 == s && fault == Some(r.1.at)
    ensures r.1.Refused? ==> r.0 == s && r.1.error == EmptyCart
    ensures r.1.Placed? <==>
              fault != Some(ReadCart) && |LinesOf(s.cart, s.products, Key(b.userId))| > 0 &&
              (fault.None? || !Reached(fault.value, |LinesOf(s.cart, s.products, Key(b.userId))|))
    ensures r.1.Placed? ==>
              r == (Place(s, b, LinesOf(s.cart, s.products, Key(b.userId))),
                    Placed(NextId(s.orders, (o: Order) => o.id)))
    ensures !r.1.Placed? ==> r.0 == s
  {
    if fault == Some(ReadCart) then (s, Thrown(ReadCart))
    else
      var lines := LinesOf(s.cart, s.products, Key(b.userId));
      if |lines| == 0 then (s, Refused(EmptyCart))
      else if fault.Some? && Reached(fault.value, |lines|) then (s, Thrown(fault.value))
      else (Place(s, b, lines), Placed(NextId(s.orders, (o: Order) => o.id)))
  }

  /** POST /orders/checkout. `fault` names the statement that throws, if any. */
  function Checkout(s: Store, b: CheckoutBody, fault: Option<CheckoutStep>)
    : (r: (Store, CheckoutResult))
    // a throw leaves the store as it was
    ensures r.1.Thrown? ==> r.0 == s && fault == Some(r.1.at)
    // refusals write nothing
    ensures r.1.Refused? ==> r.0 == s
    ensures !(fault == Some(Connect) || fault == Some(Begin)) ==>
              var valid := Truthy(b.userId) && Truthy(b.paymentMethod) && Truthy(b.address) &&
                           Truthy(b.phone);
              (!valid ==> r.1 == Refused(MissingFields)) &&
              (valid && ParseInt(b.userId).None? ==> r.1 == Refused(InvalidUserId))
    // atomicity: either everything is written or nothing is
    ensures r.0 != s ==> r.1.Placed?
    ensures r.1.Placed? ==> fault.None? || !Reached(fault.value, |LinesOf(s.cart, s.products, Key(b.userId))|)
  {
    if fault == Some(Connect) then (s, Thrown(Connect))
    else if fault == Some(Begin) then (s, Thrown(Begin))
    else
      match Validate(b)
      case Some(e) => (s, Refused(e))
      case None => Transaction(s, b, fault)
  }

  /** The writes of a successful checkout: the order, its items, and the emptied cart. */
  function Place(s: Store, b: CheckoutBody, lines: seq<CartLine>): (s': Store)
    requires Truthy(b.userId) && |lines| > 0
    ensures s' == s.(orders := s'.orders, orderItems := s'.orderItems, cart := s'.cart)
    ensures s' != s
  {
    var orderId := NextId(s.orders, (o: Order) => o.id);
    var order := Order(orderId, Key(b.userId).value, TotalPrice(lines), ToStr(b.paymentMethod),
                       ToStr(b.address), ToStr(b.phone), s.clock);
    var items := ItemsFor(lines, orderId, NextId(s.orderItems, (i: OrderItem) => i.id));
    var s' := s.(orders := s.orders + [order], orderItems := s.orderItems + items,
                 cart := Filter(s.cart, (c: CartItem) => !Is(c.userId, Key(b.userId))));
    assert |s'.orders| != |s.orders|;
    s'
  }

  /** What the writes of a checkout are: one new order with the caller's id, the lines' total
      and the given contact fields; one order item per line, carrying the new order id and that
      line's product, quantity and price; the caller's cart emptied, every other cart row kept;
      nothing else touched. */
  lemma PlaceWrites(s: Store, b: CheckoutBody, lines: seq<CartLine>)
    requires Truthy(b.userId) && |lines| > 0
    ensures var s' := Place(s, b, lines);
      var user := Key(b.userId);
      var orderId := NextId(s.orders, (o: Order) => o.id);
      user.Some? &&
      |s'.orders| == |s.orders| + 1 && s'.orders[..|s.orders|] == s.orders &&
      s'.orders[|s.orders|] == Order(orderId, user.value, Sum(lines), ToStr(b.paymentMethod),
                                     ToStr(b.address), ToStr(b.phone), s.clock) &&
      |s'.orderItems| == |s.orderItems| + |lines| && s'.orderItems[..|s.orderItems|] == s.orderItems &&
      (forall k :: 0 <= k < |lines| ==>
         var item := s'.orderItems[|s.orderItems| + k];
         item.orderId == orderId && item.productId == lines[k].productId &&
         item.quantity == lines[k].quantity && item.price == lines[k].price) &&
      ItemsTotal(s'.orderItems[|s.orderItems|..]) == s'.orders[|s.orders|].totalPrice &&
      (forall i :: 0 <= i < |s'.cart| ==> !Is(s'.cart[i].userId, user)) &&
      (forall i :: 0 <= i < |s.cart| && !Is(s.cart[i].userId, user) ==> s.cart[i] in s'.cart) &&
      (forall i :: 0 <= i < |s'.cart| ==> s'.cart[i] in s.cart)
  {
    var orderId := NextId(s.orders, (o: Order) => o.id);
    var firstId := NextId(s.orderItems, (i: OrderItem) => i.id);
    var s' := Place(s, b, lines);
    assert s'.orderItems[|s.orderItems|..] == ItemsFor(lines, orderId, firstId);
    ItemsTotalOfItemsFor(lines, orderId, firstId);
  }

  /** Every effect of a successful checkout: those of its writes, for the lines of the caller's
      cart, under an order id above every existing one. */
  lemma CheckoutPlaces(s: Store, b: CheckoutBody, fault: Option<CheckoutStep>)
    requires Checkout(s, b, fault).1.Placed?
    ensures var (s', res) := Checkout(s, b, fault);
      var lines := LinesOf(s.cart, s.products, Key(b.userId));
      Truthy(b.userId) && |lines| > 0 && res == Placed(NextId(s.orders, (o: Order) => o.id)) &&
      (forall i :: 0 <= i < |s.orders| ==> s.orders[i].id < res.orderId) &&
      s' == Place(s, b, lines)
  {
    assert Validate(b).None?;
    var lines := LinesOf(s.cart, s.products, Key(b.userId));
    assert Checkout(s, b, fault) == Transaction(s, b, fault);
  }

  /** With no fault, a valid request against a non-empty cart places the order. */
  lemma CheckoutSucceeds(s: Store, b: CheckoutBody)
    requires Truthy(b.userId) && Truthy(b.paymentMethod) && Truthy(b.address) && Truthy(b.phone)
    requires ParseInt(b.userId).Some?
    requires |LinesOf(s.cart, s.products, Key(b.userId))| > 0
    ensures Checkout(s, b, None).1 == Placed(NextId(s.orders, (o: Order) => o.id))
  {
    assert Validate(b).None?;
    assert Checkout(s, b, None) == Transaction(s, b, None);
  }

  /** An empty cart is refused. */
  lemma CheckoutEmptyCart(s: Store, b: CheckoutBody, fault: Option<CheckoutStep>)
    requires Truthy(b.userId) && Truthy(b.paymentMethod) && Truthy(b.address) && Truthy(b.phone)
    requires ParseInt(b.userId).Some?
    requires fault != Some(Connect) && fault != Some(Begin) && fault != Some(ReadCart)
    requires LinesOf(s.cart, s.products, Key(b.userId)) == []
    ensures Checkout(s, b, fault) == (s, Refused(EmptyCart))
  {
    assert Validate(b).None?;
    assert Checkout(s, b, fault) == Transaction(s, b, fault);
  }

  // ------------------------------------------------------------------------------------------
  // Order queries

  /** An order item as the order queries show it. */
  datatype ItemDetail = ItemDetail(item: OrderItem, productName: string, image: Option<string>)

  /** An order with its buyer's name and its items. */
  datatype OrderDetail = OrderDetail(order: Order, userName: string, items: seq<ItemDetail>)

  /** An order of the user's order list, with its items. */
  datatype UserOrder = UserOrder(order: Order, items: seq<ItemDetail>)

  /** The path of the first image of the product flagged `is_primary = 1`, if any. */
  function PrimaryPath(s: Store, productId: int): (r: Option<string>)
    ensures r.Some? ==> exists i :: 0 <= i < |s.images| && s.images[i].productId == productId &&
                          s.images[i].isPrimary == 1 && s.images[i].path == r
    ensures (forall i :: 0 <= i < |s.images| ==>
               s.images[i].productId != productId || s.images[i].isPrimary != 1) ==> r.None?
  {
    match Find(s.images, (img: ProductImage) => img.productId == productId && img.isPrimary == 1)
    case None => None
    case Some(k) => s.images[k].path
  }

  /** The image url of an order item: the primary image path behind the fixed local host, or
      null when the product has no primary image or its path is empty. */
  function ItemImage(s: Store, productId: int): (r: Option<string>)
    ensures r.Some? <==> Present(PrimaryPath(s, productId))
    ensures r.Some? ==> r.value == "http://localhost:3000/" + PrimaryPath(s, productId).value
  {
    var path := PrimaryPath(s, productId);
    if Present(path) then Some("http://localhost:3000/" + path.value) else None
  }

  /** The items of the order bound as `orderId`, joined with their products: an item whose
      product is gone is not shown. */
  function ItemDetails(s: Store, items: seq<OrderItem>, orderId: Option<int>)
    : (r: seq<ItemDetail>)
    ensures |r| <= |items|
    ensures forall k :: 0 <= k < |r| ==>
              r[k].item in items && Is(r[k].item.orderId, orderId) &&
              ProductOf(s.products, r[k].item.productId).Some? &&
              r[k].productName == ProductOf(s.products, r[k].item.productId).value.name &&
              r[k].image == ItemImage(s, r[k].item.productId)
  {
    if |items| == 0 then []
    else
      var rest := ItemDetails(s, items[1..], orderId);
      var it := items[0];
      if !Is(it.orderId, orderId) then rest
      else
        match ProductOf(s.products, it.productId)
        case None => rest
        case Some(p) => [ItemDetail(it, p.name, ItemImage(s, it.productId))] + rest
  }

  /** Every item of the order whose product exists is shown. */
  lemma {:induction false} ItemDetailsComplete(s: Store, items: seq<OrderItem>, orderId: Option<int>,
                                               i: nat)
    requires i < |items| && Is(items[i].orderId, orderId)
    requires ProductOf(s.products, items[i].productId).Some?
    ensures exists k :: 0 <= k < |ItemDetails(s, items, orderId)| &&
                        ItemDetails(s, items, orderId)[k].item == items[i]
  {
    var r := ItemDetails(s, items, orderId);
    if i == 0 {
      assert r[0].item == items[0];
    } else {
      ItemDetailsComplete(s, items[1..], orderId, i - 1);
      var rest := ItemDetails(s, items[1..], orderId);
      var k :| 0 <= k < |rest| && rest[k].item == items[1..][i - 1];
      if r == rest {
      } else {
        assert r[k + 1] == rest[k];
      }
    }
  }

  /** The buyer of an order, as the inner join with users finds them. */
  function UserOf(users: seq<User>, id: int): (r: Option<User>)
    ensures r.Some? ==> r.value in users && r.value.id == id
    ensures r.None? ==> forall i :: 0 <= i < |users| ==> users[i].id != id
  {
    match Find(users, (u: User) => u.id == id)
    case None => None
    case Some(k) => Some(users[k])
  }

  /** The orders bound as `orderId` whose buyer exists, in table order. */
  function JoinedOrders(s: Store, orderId: Option<int>): (r: seq<Order>)
    ensures forall k :: 0 <= k < |r| ==>
              r[k] in s.orders && Is(r[k].id, orderId) && UserOf(s.users, r[k].userId).Some?
    ensures forall i ::
              (0 <= i < |s.orders| && Is(s.orders[i].id, orderId) &&
               UserOf(s.users, s.orders[i].userId).Some?) ==> s.orders[i] in r
  {
    Filter(s.orders, (o: Order) => Is(o.id, orderId) && UserOf(s.users, o.userId).Some?)
  }

  const InvalidOrderId := "Invalid order ID"
  const OrderNotFound := "Order not found"

  /** GET /orders/:id. A falsy or non-numeric id is refused; an id no order (with an existing
      buyer) has is not found. Any caller may read any order. */
  function GetOrderById(s: Store, orderId: Val): (r: Result<OrderDetail, string>)
    ensures (!Truthy(orderId) || ParseInt(orderId).None?) ==> r == Failure(InvalidOrderId)
    ensures Truthy(orderId) && ParseInt(orderId).Some? && JoinedOrders(s, Key(orderId)) == [] ==>
              r == Failure(OrderNotFound)
    ensures r.Success? ==>
              r.value.order == JoinedOrders(s, Key(orderId))[0] &&
              r.value.userName == UserOf(s.users, r.value.order.userId).value.name &&
              r.value.items == ItemDetails(s, s.orderItems, Key(orderId))
  {
    if !Truthy(orderId) || ParseInt(orderId).None? then Failure(InvalidOrderId)
    else
      var rows := JoinedOrders(s, Key(orderId));
      if |rows| == 0 then Failure(OrderNotFound)
      else
        var o := rows[0];
        Success(OrderDetail(o, UserOf(s.users, o.userId).value.name,
                            ItemDetails(s, s.orderItems, Key(orderId))))
  }

  /** The listing order of order lists: newest first. */
  predicate NewerOrderFirst(a: Order, b: Order) {
    a.createdAt >= b.createdAt
  }

  /** The user's orders, newest first: exactly the rows with that user id. */
  function OrdersOfUser(s: Store, userId: Option<int>): (r: seq<Order>)
    ensures multiset(r) == multiset(Filter(s.orders, (o: Order) => Is(o.userId, userId)))
    ensures SortedBy(r, NewerOrderFirst)
    ensures forall k :: 0 <= k < |r| ==> Is(r[k].userId, userId)
  {
    var mine := Filter(s.orders, (o: Order) => Is(o.userId, userId));
    SortIsSorted(mine, NewerOrderFirst);
    var r := Sort(mine, NewerOrderFirst);
    forall k | 0 <= k < |r|
      ensures Is(r[k].userId, userId)
    {
      assert r[k] in multiset(mine);
    }
    r
  }

  /** GET /orders/user/:userId: every order of the user, newest first, each with its items. */
  function GetUserOrders(s: Store, userId: Val): (r: Result<seq<UserOrder>, string>)
    ensures (!Truthy(userId) || ParseInt(userId).None?) <==> r == Failure(InvalidUserId)
    ensures r.Success? ==>
              var orders := OrdersOfUser(s, Key(userId));
              |r.value| == |orders| &&
              forall k :: 0 <= k < |orders| ==>
                r.value[k].order == orders[k] && Is(orders[k].userId, Key(userId)) &&
                r.value[k].items == ItemDetails(s, s.orderItems, Some(orders[k].id))
    ensures r.Success? ==>
              forall j, k :: 0 <= j < k < |r.value| ==>
                r.value[j].order.createdAt >= r.value[k].order.createdAt
  {
    if !Truthy(userId) || ParseInt(userId).None? then Failure(InvalidUserId)
    else
      var orders := OrdersOfUser(s, Key(userId));
      Success(Map(orders, (o: Order) => UserOrder(o, ItemDetails(s, s.orderItems, Some(o.id)))))
  }
}
