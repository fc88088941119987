/** The user router: the admin view of every order with its items and their images, and the
    profile read and update that fall back to a default picture. */
module UserRoutes {
  import opened Wrappers
  import opened Seqs
  import opened Sorting
  import opened Js
  import opened Db
  import opened Http
  import Orders
  import ProductImages
  import Users

  // ------------------------------------------------------------------------------------------
  // Distinct product ids

  /** `xs.indexOf(x)`: the first position holding `x`, or -1. */
  function IndexOf(xs: seq<int>, x: int): (r: int)
    ensures r == -1 <==> x !in xs
    ensures r != -1 ==> 0 <= r < |xs| && xs[r] == x
    ensures forall j :: 0 <= j < r ==> xs[j] != x
  {
    match Find(xs, (y: int) => y == x)
    case None => -1
    case Some(k) => k
  }

  /** The first position of an element is at or before any position holding it. */
  lemma IndexOfAtMost(xs: seq<int>, k: nat)
    requires k < |xs|
    ensures 0 <= IndexOf(xs, xs[k]) <= k
  {
  }

  /** `xs.filter((x, index) => xs.indexOf(x) === index)` restricted to the positions from
      `from` on. */
  function FirstOccurrences(xs: seq<int>, from: nat): (r: seq<int>)
    requires from <= |xs|
    decreases |xs| - from
  {
    if from == |xs| then []
    else if IndexOf(xs, xs[from]) == from then [xs[from]] + FirstOccurrences(xs, from + 1)
    else FirstOccurrences(xs, from + 1)
  }

  /** From `from` on, the filter keeps only elements whose first occurrence is at or after
      `from`. */
  lemma {:induction false} FirstOccurrencesLate(xs: seq<int>, from: nat, k: nat)
    requires from <= |xs| && k < |FirstOccurrences(xs, from)|
    decreases |xs| - from
    ensures from <= IndexOf(xs, FirstOccurrences(xs, from)[k])
  {
    if IndexOf(xs, xs[from]) != from {
      FirstOccurrencesLate(xs, from + 1, k);
    } else if k > 0 {
      FirstOccurrencesLate(xs, from + 1, k - 1);
    }
  }

  /** The first kept element from `from` on has the earliest first occurrence of them all. */
  lemma {:induction false} FirstOccurrencesHead(xs: seq<int>, from: nat, j: nat)
    requires from <= |xs| && 0 < j < |FirstOccurrences(xs, from)|
    ensures IndexOf(xs, FirstOccurrences(xs, from)[0]) < IndexOf(xs, FirstOccurrences(xs, from)[j])
    decreases |xs| - from
  {
    var r := FirstOccurrences(xs, from);
    var rest := FirstOccurrences(xs, from + 1);
    if IndexOf(xs, xs[from]) != from {
      FirstOccurrencesHead(xs, from + 1, j);
    } else {
      assert r[0] == xs[from] && r[j] == rest[j - 1];
      FirstOccurrencesLate(xs, from + 1, j - 1);
    }
  }

  /** The kept elements come in the order of their first occurrences. */
  lemma {:induction false} FirstOccurrencesOrdered(xs: seq<int>, from: nat, i: nat, j: nat)
    requires from <= |xs| && i < j < |FirstOccurrences(xs, from)|
    decreases |xs| - from
    ensures IndexOf(xs, FirstOccurrences(xs, from)[i]) < IndexOf(xs, FirstOccurrences(xs, from)[j])
  {
    var r := FirstOccurrences(xs, from);
    var rest := FirstOccurrences(xs, from + 1);
    if i == 0 {
      FirstOccurrencesHead(xs, from, j);
    } else {
      var a, b := i, j;
      if IndexOf(xs, xs[from]) == from {
        assert r == [xs[from]] + rest;
        a, b := i - 1, j - 1;
      } else {
        assert r == rest;
      }
      assert r[i] == rest[a] && r[j] == rest[b];
      FirstOccurrencesOrdered(xs, from + 1, a, b);
    }
  }

  /** Every element whose first occurrence is at or after `from` is kept. */
  lemma {:induction false} FirstOccurrencesComplete(xs: seq<int>, from: nat, k: nat)
    requires from <= k < |xs| && from <= IndexOf(xs, xs[k])
    decreases |xs| - from
    ensures xs[k] in FirstOccurrences(xs, from)
  {
    IndexOfAtMost(xs, k);
    if IndexOf(xs, xs[k]) != from {
      FirstOccurrencesComplete(xs, from + 1, k);
    }
  }

  /** The product ids of the admin view, de-duplicated by first occurrence. */
  function Distinct(xs: seq<int>): (r: seq<int>)
    ensures forall x :: x in r <==> x in xs
    ensures forall i, j :: 0 <= i < j < |r| ==> r[i] != r[j]
    ensures forall i, j :: 0 <= i < j < |r| ==> IndexOf(xs, r[i]) < IndexOf(xs, r[j])
  {
    var r := FirstOccurrences(xs, 0);
    assert forall i, j :: 0 <= i < j < |r| ==> IndexOf(xs, r[i]) < IndexOf(xs, r[j]) by {
      forall i, j | 0 <= i < j < |r| {
        FirstOccurrencesOrdered(xs, 0, i, j);
      }
    }
    assert forall k :: 0 <= k < |r| ==> r[k] in xs by {
      forall k | 0 <= k < |r| {
        FirstOccurrencesLate(xs, 0, k);
      }
    }
    assert forall x :: x in xs ==> x in r by {
      forall x | x in xs
        ensures x in r
      {
        FirstOccurrencesComplete(xs, 0, IndexOf(xs, x));
      }
    }
    r
  }

  // ------------------------------------------------------------------------------------------
  // The admin orders view

  /** An order item joined with its product, before its image is attached. */
  datatype ItemRow = ItemRow(item: OrderItem, productName: string)

  /** An order item as the admin view shows it. */
  datatype AdminItem = AdminItem(item: OrderItem, productName: string, image: Option<string>)

  /** An order with its buyer's name (null when the buyer is gone) and its items. */
  datatype AdminOrder = AdminOrder(order: Order, userName: Option<string>, items: seq<AdminItem>)

  /** The body of the admin orders reply. */
  datatype AdminOrders = AdminOrders(orders: seq<AdminOrder>, message: string)

  /** `order_items JOIN products`: the items whose product exists, in table order, each with its
      product's name. */
  function JoinedItems(items: seq<OrderItem>, products: seq<Product>): (r: seq<ItemRow>)
    ensures |r| == |Filter(items, (it: OrderItem) => Orders.ProductOf(products, it.productId).Some?)|
    ensures forall k :: 0 <= k < |r| ==>
              r[k].item == Filter(items, (it: OrderItem) => Orders.ProductOf(products, it.productId).Some?)[k] &&
              r[k].productName == Orders.ProductOf(products, r[k].item.productId).value.name
  {
    if |items| == 0 then []
    else
      var rest := JoinedItems(items[1..], products);
      match Orders.ProductOf(products, items[0].productId)
      case None => rest
      case Some(p) => [ItemRow(items[0], p.name)] + rest
  }

  /** The product ids of the joined items, each once. */
  function ProductIds(rows: seq<ItemRow>): (ids: seq<int>)
    ensures forall k :: 0 <= k < |rows| ==> rows[k].item.productId in ids
    ensures forall i, j :: 0 <= i < j < |ids| ==> ids[i] != ids[j]
    ensures forall x :: x in ids ==> exists k :: 0 <= k < |rows| && rows[k].item.productId == x
  {
    var all := Map(rows, (row: ItemRow) => row.item.productId);
    var ids := Distinct(all);
    assert forall k :: 0 <= k < |rows| ==> all[k] in all;
    ids
  }

  /** `product_images WHERE product_id IN (ids)`, in table order; no query at all, and so no
      images, when the id list is empty. */
  function Pool(s: Store, ids: seq<int>): (r: seq<ProductImage>)
    ensures forall i :: 0 <= i < |r| ==> r[i] in s.images && r[i].productId in ids
  {
    if |ids| == 0 then [] else Filter(s.images, (img: ProductImage) => img.productId in ids)
  }

  /** `productImages.filter(img => img.product_id === id)`. */
  function PoolImages(pool: seq<ProductImage>, productId: int): seq<ProductImage> {
    Filter(pool, (img: ProductImage) => img.productId == productId)
  }

  /** The pool loses no image of a listed product: filtering it by one of the ids gives all the
      images of that product. */
  lemma PoolKeepsProductImages(s: Store, ids: seq<int>, productId: int)
    requires productId in ids
    ensures PoolImages(Pool(s, ids), productId) == ProductImages.ImagesOf(s, Some(productId))
  {
    FilterFilter(s.images, (img: ProductImage) => img.productId in ids,
                 (img: ProductImage) => img.productId == productId);
    FilterCongruent(s.images, (img: ProductImage) => img.productId == productId,
                    (img: ProductImage) => Is(img.productId, Some(productId)));
  }

  /** The image of an item given its product's images: the path of the first image flagged
      `is_primary === 1`, or failing that the first image's path, with an empty or null path
      shown as null. A primary image with no path gives null even when another image has
      one. */
  function AdminImage(imgs: seq<ProductImage>): (r: Option<string>)
    ensures |imgs| == 0 ==> r.None?
    ensures r.Some? ==> Present(r) && exists i :: 0 <= i < |imgs| && imgs[i].path == r
    ensures (exists i :: 0 <= i < |imgs| && imgs[i].isPrimary == 1) ==>
              exists i :: 0 <= i < |imgs| && imgs[i].isPrimary == 1 &&
                          (forall j :: 0 <= j < i ==> imgs[j].isPrimary != 1) &&
                          r == (if Present(imgs[i].path) then imgs[i].path else None)
    ensures (0 < |imgs| && forall i :: 0 <= i < |imgs| ==> imgs[i].isPrimary != 1) ==>
              r == (if Present(imgs[0].path) then imgs[0].path else None)
  {
    if |imgs| == 0 then None
    else
      var path := match Find(imgs, (img: ProductImage) => img.isPrimary == 1)
                  case Some(k) => imgs[k].path
                  case None => imgs[0].path;
      if Present(path) then path else None
  }

  /** An item row with its image picked from the pool. */
  function Attach(pool: seq<ProductImage>, row: ItemRow): AdminItem {
    AdminItem(row.item, row.productName, AdminImage(PoolImages(pool, row.item.productId)))
  }

  /** The joined items with their images attached. Each shows the image the rule picks among all
      of its product's images. */
  function ProcessedItems(s: Store): (r: seq<AdminItem>)
    ensures var rows := JoinedItems(s.orderItems, s.products);
      |r| == |rows| &&
      forall k :: 0 <= k < |r| ==>
        r[k].item == rows[k].item && r[k].productName == rows[k].productName &&
        r[k].image == AdminImage(ProductImages.ImagesOf(s, Some(r[k].item.productId)))
  {
    var rows := JoinedItems(s.orderItems, s.products);
    var ids := ProductIds(rows);
    var pool := Pool(s, ids);
    var r := Map(rows, (row: ItemRow) => Attach(pool, row));
    assert forall k :: 0 <= k < |r| ==>
             r[k].image == AdminImage(ProductImages.ImagesOf(s, Some(r[k].item.productId))) by {
      forall k | 0 <= k < |r|
        ensures r[k].image == AdminImage(ProductImages.ImagesOf(s, Some(r[k].item.productId)))
      {
        assert r[k] == Attach(pool, rows[k]);
        PoolKeepsProductImages(s, ids, rows[k].item.productId);
      }
    }
    r
  }

  /** The buyer's name from the outer join with users. */
  function UserName(users: seq<User>, id: int): (r: Option<string>)
    ensures r.None? <==> Orders.UserOf(users, id).None?
    ensures r.Some? ==> r.value == Orders.UserOf(users, id).value.name
  {
    match Orders.UserOf(users, id)
    case None => None
    case Some(u) => Some(u.name)
  }

  /** Every order, newest first. */
  function NewestFirst(s: Store): (r: seq<Order>)
    ensures multiset(r) == multiset(s.orders)
    ensures SortedBy(r, Orders.NewerOrderFirst)
  {
    SortIsSorted(s.orders, Orders.NewerOrderFirst);
    Sort(s.orders, Orders.NewerOrderFirst)
  }

  /** GET /api/users/admin/orders. With no orders the reply is an empty list saying so;
      otherwise every order, newest first, with its buyer's name and exactly the processed items
      that belong to it. */
  function AdminOrdersView(s: Store): (h: Handled<AdminOrders>)
    ensures h.store == s && h.destroyed == [] && h.reply.Ok? && h.reply.status == 200
    ensures |s.orders| == 0 ==> h.reply.body == AdminOrders([], "No orders found")
    ensures |s.orders| > 0 ==> h.reply.body.message == "Orders fetched"
    ensures var r := h.reply.body.orders;
      |r| == |s.orders| &&
      forall k :: 0 <= k < |r| ==>
        r[k].order == NewestFirst(s)[k] &&
        r[k].userName == UserName(s.users, r[k].order.userId) &&
        (forall i :: 0 <= i < |r[k].items| ==>
           r[k].items[i] in ProcessedItems(s) && r[k].items[i].item.orderId == r[k].order.id) &&
        (forall j :: 0 <= j < |ProcessedItems(s)| && ProcessedItems(s)[j].item.orderId == r[k].order.id ==>
           ProcessedItems(s)[j] in r[k].items)
  {
    if |s.orders| == 0 then Handled(s, Ok(200, AdminOrders([], "No orders found")), [])
    else
      var items := ProcessedItems(s);
      var sorted := NewestFirst(s);
      assert |sorted| == |s.orders| by {
        assert |multiset(sorted)| == |multiset(s.orders)|;
      }
      var orders := Map(sorted, (o: Order) =>
                          AdminOrder(o, UserName(s.users, o.userId),
                                     Filter(items, (i: AdminItem) => i.item.orderId == o.id)));
      Handled(s, Ok(200, AdminOrders(orders, "Orders fetched")), [])
  }

  /** The view drops nothing and duplicates nothing: every order item whose product exists
      appears, under its own order, with the image the rule picks among its product's
      images. */
  lemma AdminOrdersShowsEveryItem(s: Store, j: nat)
    requires j < |s.orderItems|
    requires Orders.ProductOf(s.products, s.orderItems[j].productId).Some?
    ensures var r := AdminOrdersView(s).reply.body.orders;
      forall k :: 0 <= k < |r| && r[k].order.id == s.orderItems[j].orderId ==>
        exists i :: 0 <= i < |r[k].items| && r[k].items[i].item == s.orderItems[j] &&
                    r[k].items[i].image ==
                      AdminImage(ProductImages.ImagesOf(s, Some(s.orderItems[j].productId)))
  {
    var it := s.orderItems[j];
    var joined := Filter(s.orderItems, (x: OrderItem) => Orders.ProductOf(s.products, x.productId).Some?);
    assert it in joined;
    var m :| 0 <= m < |joined| && joined[m] == it;
    var items := ProcessedItems(s);
    assert items[m].item == it;
    var r := AdminOrdersView(s).reply.body.orders;
    forall k | 0 <= k < |r| && r[k].order.id == it.orderId
      ensures exists i :: 0 <= i < |r[k].items| && r[k].items[i].item == it &&
                          r[k].items[i].image == AdminImage(ProductImages.ImagesOf(s, Some(it.productId)))
    {
      assert items[m] in r[k].items;
      var i :| 0 <= i < |r[k].items| && r[k].items[i] == items[m];
    }
  }

  // ------------------------------------------------------------------------------------------
  // Profiles with a default picture

  /** The picture shown for a user without one. */
  const DefaultProfileImage := "https://res.cloudinary.com/dk0szadna/image/upload/v1/mamacycle/profiles/default"

  /** `image || <default>`. */
  function ShownImage(image: Option<string>): (r: string)
    ensures r != ""
    ensures Present(image) ==> r == image.value
    ensures !Present(image) ==> r == DefaultProfileImage
  {
    if Present(image) then image.value else DefaultProfileImage
  }

  /** A profile as this router returns it; the picture is never empty. */
  datatype PublicProfile = PublicProfile(id: int, name: string, email: string, image: string)

  /** The body of a successful update. */
  datatype ProfileUpdate = ProfileUpdate(message: string, user: PublicProfile)

  /** GET /api/users/:id. The id is bound as a string and read as the database reads it; an
      unknown user is 404. */
  function GetProfile(s: Store, id: string): (h: Handled<PublicProfile>)
    ensures h.store == s && h.destroyed == []
    ensures h.reply.Ok? <==> Users.UserById(s.users, KeyOf(id)).Some?
    ensures h.reply.Fail? ==> h.reply == Fail(404, "User not found")
    ensures h.reply.Ok? ==>
              var u := Users.UserById(s.users, KeyOf(id)).value;
              h.reply == Ok(200, PublicProfile(u.id, u.name, u.email, ShownImage(u.image))) &&
              h.reply.body.image != ""
  {
    match Users.UserById(s.users, KeyOf(id))
    case None => Refuse(s, 404, "User not found")
    case Some(u) => Handled(s, Ok(200, PublicProfile(u.id, u.name, u.email, ShownImage(u.image))), [])
  }

  /** PUT /api/users/:id. Nothing is validated: name and email are written as sent. None stands
      for a request the handler never answers, because the update hits the unique email index
      or the re-read finds no user and the handler throws. Otherwise the reply is the re-read
      row with the default picture filled in. */
  function UpdateProfile(s: Store, id: string, name: string, email: string)
    : (h: Option<Handled<ProfileUpdate>>)
    ensures h.None? <==>
              Users.UserById(s.users, KeyOf(id)).None? || Users.EmailTaken(s.users, KeyOf(id), email)
    ensures h.Some? ==>
              var u := Users.UserById(s.users, KeyOf(id)).value;
              h.value.destroyed == [] &&
              h.value.store == s.(users := Users.SetNameEmail(s.users, KeyOf(id), name, email)) &&
              h.value.reply == Ok(200, ProfileUpdate("Profile updated",
                                                     PublicProfile(u.id, name, email, ShownImage(u.image))))
  {
    var key := KeyOf(id);
    match Users.UserById(s.users, key)
    case None => None
    case Some(u) =>
      if Users.EmailTaken(s.users, key, email) then None
      else
        Some(Handled(s.(users := Users.SetNameEmail(s.users, key, name, email)),
                     Ok(200, ProfileUpdate("Profile updated",
                                           PublicProfile(u.id, name, email, ShownImage(u.image)))), []))
  }

  /** What an update answers is what a read of the same id answers afterwards. */
  lemma UpdateThenGet(s: Store, id: string, name: string, email: string)
    requires UpdateProfile(s, id, name, email).Some?
    ensures var h := UpdateProfile(s, id, name, email).value;
      GetProfile(h.store, id).reply == Ok(200, h.reply.body.user)
  {
    var key := KeyOf(id);
    var users := Users.SetNameEmail(s.users, key, name, email);
    FindSamePositions(s.users, users, (x: User) => x.id == key);
  }
}
