/** The shopping cart: its listing, the add-or-increase upsert, removal and quantity updates,
    and the validation the cart endpoints do first. */
module Cart {
  import opened Wrappers
  import opened Seqs
  import opened Js
  import opened Db
  import opened Http

  /** A cart row as the cart listing shows it. */
  datatype CartRow = CartRow(id: int, name: string, price: int, quantity: int,
                             image: Option<string>, description: string)

  /** The product's images flagged `is_primary = 1`, in table order. */
  function PrimaryImages(s: Store, productId: int): (r: seq<ProductImage>)
    ensures forall i :: 0 <= i < |r| ==>
              r[i] in s.images && r[i].productId == productId && r[i].isPrimary == 1
  {
    Filter(s.images, (img: ProductImage) => img.productId == productId && img.isPrimary == 1)
  }

  /** The listing rows of one cart row: one per primary image of its product, whose path is
      shown when not null and the product's own image otherwise; a product without a primary
      image gives one row with the product's image. */
  function RowsOf(s: Store, c: CartItem, p: Product): (r: seq<CartRow>)
    ensures |r| >= 1
    ensures forall k :: 0 <= k < |r| ==>
              r[k].id == c.id && r[k].quantity == c.quantity && r[k].name == p.name &&
              r[k].price == p.price && r[k].description == p.description
    ensures PrimaryImages(s, p.id) == [] ==> r == [CartRow(c.id, p.name, p.price, c.quantity, p.image, p.description)]
    ensures PrimaryImages(s, p.id) != [] ==>
              |r| == |PrimaryImages(s, p.id)| &&
              forall k :: 0 <= k < |r| ==>
                r[k].image == (if PrimaryImages(s, p.id)[k].path.Some?
                               then PrimaryImages(s, p.id)[k].path else p.image)
  {
    var primaries := PrimaryImages(s, p.id);
    if primaries == [] then [CartRow(c.id, p.name, p.price, c.quantity, p.image, p.description)]
    else
      Map(primaries, (img: ProductImage) =>
        CartRow(c.id, p.name, p.price, c.quantity,
                if img.path.Some? then img.path else p.image, p.description))
  }

  /** The position of the product a cart row joins with: the first product with its id. */
  function Joined(s: Store, c: CartItem): (r: Option<nat>)
    ensures r.Some? ==> r.value < |s.products| && s.products[r.value].id == c.productId
    ensures r.None? <==> forall j :: 0 <= j < |s.products| ==> s.products[j].id != c.productId
  {
    Find(s.products, (p: Product) => p.id == c.productId)
  }

  /** The listing rows one cart row yields under the inner join with `products`: `RowsOf`
      with its product, and none when the product is gone. */
  function Listing(s: Store, c: CartItem): (r: seq<CartRow>)
    ensures r == [] <==> Joined(s, c).None?
  {
    match Joined(s, c)
    case None => []
    case Some(j) => RowsOf(s, c, s.products[j])
  }

  /** The listing rows cart row `c` yields when the listing is for user `userId`: none for
      another user's row. */
  function UserListing(s: Store, userId: Option<int>): CartItem -> seq<CartRow> {
    (c: CartItem) => if Is(c.userId, userId) then Listing(s, c) else []
  }

  /** The listing rows of a sequence of cart rows of user `userId`, in table order; what each
      row holds is stated by `RowsFromRow` and `RowsFromComplete`. */
  function RowsFrom(s: Store, items: seq<CartItem>, userId: Option<int>): seq<CartRow> {
    Flatten(items, UserListing(s, userId))
  }

  /** `row` is one of the listing rows cart row `c` yields, joined with a product that
      exists: the product's name, price and description, the row's quantity, and the primary
      image or the product's own. */
  predicate ListedFrom(s: Store, c: CartItem, row: CartRow) {
    row in Listing(s, c)
  }

  /** Every listed row is one of the rows a cart row of the user yields: the `m`-th row of
      cart row `i`. */
  lemma RowsFromRow(s: Store, items: seq<CartItem>, userId: Option<int>, k: nat)
    returns (i: nat, m: nat)
    requires k < |RowsFrom(s, items, userId)|
    ensures i < |items| && Is(items[i].userId, userId)
    ensures m < |Listing(s, items[i])| && RowsFrom(s, items, userId)[k] == Listing(s, items[i])[m]
  {
    i, m := FlattenSource(items, UserListing(s, userId), k);
  }

  /** `row` comes from one of user `u`'s cart rows: it carries that row's id and is one of the
      rows `RowsOf` gives for it. */
  predicate FromUserCart(s: Store, u: int, row: CartRow) {
    exists i :: 0 <= i < |s.cart| && s.cart[i].userId == u && s.cart[i].id == row.id &&
                ListedFrom(s, s.cart[i], row)
  }

  /** GET /cart/:userId: only the user's own cart rows are listed, each as `RowsOf` shows it
      for its cart row and that row's existing product. */
  function GetCart(s: Store, userId: string): (r: seq<CartRow>)
    ensures forall k :: 0 <= k < |r| ==> FromUserCart(s, KeyOf(userId), r[k])
  {
    var rows := RowsFrom(s, s.cart, Some(KeyOf(userId)));
    forall k | 0 <= k < |rows|
      ensures FromUserCart(s, KeyOf(userId), rows[k])
    {
      var i, m := RowsFromRow(s, s.cart, Some(KeyOf(userId)), k);
      assert Listing(s, s.cart[i])[m] in Listing(s, s.cart[i]);
      ListedFromId(s, s.cart[i], rows[k]);
    }
    rows
  }

  /** A listing row carries the id of the cart row it comes from. */
  lemma ListedFromId(s: Store, c: CartItem, row: CartRow)
    requires ListedFrom(s, c, row)
    ensures row.id == c.id && row.quantity == c.quantity
  {
    var m :| 0 <= m < |Listing(s, c)| && Listing(s, c)[m] == row;
  }

  /** Every cart row of the user whose product exists is listed at least once: the inner join
      drops only rows whose product is gone. */
  lemma RowsFromComplete(s: Store, items: seq<CartItem>, userId: Option<int>, i: nat)
    requires i < |items| && Is(items[i].userId, userId)
    requires exists j :: 0 <= j < |s.products| && s.products[j].id == items[i].productId
    ensures exists k :: 0 <= k < |RowsFrom(s, items, userId)| && RowsFrom(s, items, userId)[k].id == items[i].id
  {
    assert Joined(s, items[i]).Some?;
    var k := FlattenHas(items, UserListing(s, userId), i, 0);
    assert RowsFrom(s, items, userId)[k] == Listing(s, items[i])[0];
  }

  /** GET /cart/:userId lists every cart row of the user whose product exists. */
  lemma GetCartListsEveryLine(s: Store, userId: string, i: nat)
    requires i < |s.cart| && s.cart[i].userId == KeyOf(userId)
    requires exists j :: 0 <= j < |s.products| && s.products[j].id == s.cart[i].productId
    ensures exists k :: 0 <= k < |GetCart(s, userId)| && GetCart(s, userId)[k].id == s.cart[i].id
  {
    RowsFromComplete(s, s.cart, Some(KeyOf(userId)), i);
    var r := RowsFrom(s, s.cart, Some(KeyOf(userId)));
    assert GetCart(s, userId) == r;
    var k :| 0 <= k < |r| && r[k].id == s.cart[i].id;
    assert GetCart(s, userId)[k].id == s.cart[i].id;
  }

  /** The cart holds at most one row per (user, product) pair: the unique key the upsert
      relies on. */
  predicate UniquePairs(cart: seq<CartItem>) {
    forall i, j ::
      (0 <= i < |cart| && 0 <= j < |cart| && cart[i].userId == cart[j].userId &&
       cart[i].productId == cart[j].productId) ==> i == j
  }

  /** How many of the product the user has in the cart. */
  function QuantityOf(cart: seq<CartItem>, userId: int, productId: int): int {
    if |cart| == 0 then 0
    else
      (if cart[0].userId == userId && cart[0].productId == productId then cart[0].quantity else 0)
      + QuantityOf(cart[1..], userId, productId)
  }

  /** The position of the user's row for the product, if any. */
  function RowOf(cart: seq<CartItem>, userId: int, productId: int): (r: Option<nat>)
    ensures r.Some? ==>
              r.value < |cart| && cart[r.value].userId == userId && cart[r.value].productId == productId
    ensures r.None? ==> forall i :: 0 <= i < |cart| ==>
              !(cart[i].userId == userId && cart[i].productId == productId)
  {
    Find(cart, (c: CartItem) => c.userId == userId && c.productId == productId)
  }

  /** `INSERT … ON DUPLICATE KEY UPDATE quantity = quantity + ?`: a new pair gets a new row with
      the quantity; an existing pair's row has the quantity added. Nothing else changes. */
  function AddToCart(s: Store, userId: int, productId: int, quantity: int): (s': Store)
    ensures s' == s.(cart := s'.cart)
    ensures RowOf(s.cart, userId, productId).None? ==>
              |s'.cart| == |s.cart| + 1 && s'.cart[..|s.cart|] == s.cart &&
              s'.cart[|s.cart|].userId == userId && s'.cart[|s.cart|].productId == productId &&
              s'.cart[|s.cart|].quantity == quantity &&
              forall i :: 0 <= i < |s.cart| ==> s.cart[i].id < s'.cart[|s.cart|].id
    ensures RowOf(s.cart, userId, productId).Some? ==>
              var k := RowOf(s.cart, userId, productId).value;
              |s'.cart| == |s.cart| && s'.cart[k] == s.cart[k].(quantity := s.cart[k].quantity + quantity) &&
              forall i :: 0 <= i < |s.cart| && i != k ==> s'.cart[i] == s.cart[i]
  {
    match RowOf(s.cart, userId, productId)
    case None =>
      var id := NextId(s.cart, (c: CartItem) => c.id);
      s.(cart := s.cart + [CartItem(id, userId, productId, quantity)])
    case Some(k) =>
      s.(cart := s.cart[k := s.cart[k].(quantity := s.cart[k].quantity + quantity)])
  }

  /** The total quantity of a (user, product) pair after an update at one position. */
  lemma {:induction false} QuantityOfUpdate(cart: seq<CartItem>, k: nat, c: CartItem, u: int, p: int)
    requires k < |cart|
    ensures QuantityOf(cart[k := c], u, p) ==
              QuantityOf(cart, u, p)
              - (if cart[k].userId == u && cart[k].productId == p then cart[k].quantity else 0)
              + (if c.userId == u && c.productId == p then c.quantity else 0)
  {
    if k > 0 {
      assert cart[k := c][1..] == cart[1..][k - 1 := c];
      QuantityOfUpdate(cart[1..], k - 1, c, u, p);
    } else {
      assert cart[k := c][1..] == cart[1..];
    }
  }

  /** The total quantity of a pair over a concatenation. */
  lemma {:induction false} QuantityOfAppend(cart: seq<CartItem>, c: CartItem, u: int, p: int)
    ensures QuantityOf(cart + [c], u, p) ==
              QuantityOf(cart, u, p) + (if c.userId == u && c.productId == p then c.quantity else 0)
  {
    if |cart| > 0 {
      assert (cart + [c])[1..] == cart[1..] + [c];
      QuantityOfAppend(cart[1..], c, u, p);
    } else {
      assert ([c])[1..] == [];
    }
  }

  /** The upsert adds exactly `quantity` to the pair's total and changes no other pair's. */
  lemma AddToCartAdds(s: Store, userId: int, productId: int, quantity: int, u: int, p: int)
    ensures QuantityOf(AddToCart(s, userId, productId, quantity).cart, u, p) ==
              QuantityOf(s.cart, u, p) + (if u == userId && p == productId then quantity else 0)
  {
    match RowOf(s.cart, userId, productId)
    case None =>
      var id := NextId(s.cart, (c: CartItem) => c.id);
      QuantityOfAppend(s.cart, CartItem(id, userId, productId, quantity), u, p);
    case Some(k) =>
      QuantityOfUpdate(s.cart, k, s.cart[k].(quantity := s.cart[k].quantity + quantity), u, p);
  }

  /** The upsert keeps pairs unique. */
  lemma AddToCartKeepsPairsUnique(s: Store, userId: int, productId: int, quantity: int)
    requires UniquePairs(s.cart)
    ensures UniquePairs(AddToCart(s, userId, productId, quantity).cart)
  {
  }

  /** `DELETE FROM cart_items WHERE id = ?`: the rows with that id go and every other row stays. */
  function RemoveFromCart(s: Store, id: Option<int>): (s': Store)
    ensures s' == s.(cart := s'.cart)
    ensures forall i :: 0 <= i < |s'.cart| ==> s'.cart[i] in s.cart && !Is(s'.cart[i].id, id)
    ensures forall i :: 0 <= i < |s.cart| && !Is(s.cart[i].id, id) ==> s.cart[i] in s'.cart
  {
    s.(cart := Filter(s.cart, (c: CartItem) => !Is(c.id, id)))
  }

  /** `UPDATE cart_items SET quantity = ? WHERE id = ?`: the quantity is replaced, not added. */
  function UpdateQuantity(s: Store, id: Option<int>, quantity: int): (s': Store)
    ensures s' == s.(cart := s'.cart) && |s'.cart| == |s.cart|
    ensures forall i :: 0 <= i < |s.cart| ==>
              s'.cart[i] == (if Is(s.cart[i].id, id) then s.cart[i].(quantity := quantity) else s.cart[i])
  {
    s.(cart := Map(s.cart, (c: CartItem) => if Is(c.id, id) then c.(quantity := quantity) else c))
  }

  /** Setting a quantity twice is setting it once, whatever the first value was. */
  lemma UpdateQuantityOverwrites(s: Store, id: Option<int>, q1: int, q2: int)
    ensures UpdateQuantity(UpdateQuantity(s, id, q1), id, q2) == UpdateQuantity(s, id, q2)
  {
    var a := UpdateQuantity(UpdateQuantity(s, id, q1), id, q2);
    var b := UpdateQuantity(s, id, q2);
    assert a.cart == b.cart;
  }

  // ------------------------------------------------------------------------------------------
  // Endpoints

  /** The body of an add-to-cart request. */
  datatype AddBody = AddBody(userId: Val, productId: Val, quantity: Val)

  /** POST /cart: a falsy user, product or quantity (0 included) is refused with the cart
      unchanged; otherwise the upsert runs once. */
  function Add(s: Store, b: AddBody): (h: Handled<string>)
    ensures !(Truthy(b.userId) && Truthy(b.productId) && Truthy(b.quantity)) ==>
              h == Refuse(s, 400, "Missing required fields")
    ensures Truthy(b.userId) && Truthy(b.productId) && Truthy(b.quantity) ==>
              h.reply == Ok(200, "Item added to cart") &&
              h.store == AddToCart(s, Key(b.userId).value, Key(b.productId).value, Key(b.quantity).value)
    ensures h.destroyed == []
  {
    if !(Truthy(b.userId) && Truthy(b.productId) && Truthy(b.quantity)) then
      Refuse(s, 400, "Missing required fields")
    else
      Handled(AddToCart(s, Key(b.userId).value, Key(b.productId).value, Key(b.quantity).value),
              Ok(200, "Item added to cart"), [])
  }

  /** The number 0 is refused like a missing quantity, but the string "0" is truthy and is
      added. */
  lemma AddZeroQuantity(s: Store, userId: Val, productId: Val)
    requires Truthy(userId) && Truthy(productId)
    ensures Add(s, AddBody(userId, productId, Num(0))) == Refuse(s, 400, "Missing required fields")
    ensures Add(s, AddBody(userId, productId, Str("0"))).reply.Ok?
  {
  }

  /** PUT /cart/:id: a falsy quantity, or one `Number` cannot read, is refused with the cart
      unchanged; otherwise the line's quantity is set. */
  function SetQuantity(s: Store, id: string, quantity: Val): (h: Handled<string>)
    ensures !Truthy(quantity) || IsNaN(quantity) ==> h == Refuse(s, 400, "Invalid quantity")
    ensures Truthy(quantity) && !IsNaN(quantity) ==>
              h.reply == Ok(200, "Cart quantity updated") &&
              h.store == UpdateQuantity(s, Some(KeyOf(id)), Key(quantity).value)
    ensures h.destroyed == []
  {
    if !Truthy(quantity) || IsNaN(quantity) then Refuse(s, 400, "Invalid quantity")
    else Handled(UpdateQuantity(s, Some(KeyOf(id)), Key(quantity).value), Ok(200, "Cart quantity updated"), [])
  }

  /** DELETE /cart/:id. */
  function Remove(s: Store, id: string): (h: Handled<string>)
    ensures h.store == RemoveFromCart(s, Some(KeyOf(id))) && h.reply == Ok(200, "Item removed from cart")
    ensures h.destroyed == []
  {
    Handled(RemoveFromCart(s, Some(KeyOf(id))), Ok(200, "Item removed from cart"), [])
  }
}
