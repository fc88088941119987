/** The relational store behind every handler, as an immutable value: one sequence of rows per
    table, in insertion order, plus the clock that stamps `created_at`. */
module Db {
  import opened Wrappers
  import opened Js

  /** A row of `users`. `image` is the nullable profile image path. */
  datatype User = User(id: int, name: string, email: string, password: string, role: string,
                       image: Option<string>)

  /** A product's moderation status. */
  datatype Status = Pending | Approved | Rejected

  /** A row of `products`; `kind` is the `type` column, `image` the legacy single image. */
  datatype Product = Product(id: int, name: string, description: string, price: int,
                             status: Status, sellerId: int, kind: string,
                             condition: Option<string>, categoryId: int,
                             image: Option<string>, createdAt: int)

  /** A row of `product_images`; `isPrimary` is the 0/1 `is_primary` column. */
  datatype ProductImage = ProductImage(id: int, productId: int, path: Option<string>,
                                       isPrimary: int, createdAt: int)

  /** A row of `cart_items`. */
  datatype CartItem = CartItem(id: int, userId: int, productId: int, quantity: int)

  /** A row of `orders`. */
  datatype Order = Order(id: int, userId: int, totalPrice: int, paymentMethod: string,
                         address: string, phone: string, createdAt: int)

  /** A row of `order_items`: one purchased line, with the unit price it was bought at. */
  datatype OrderItem = OrderItem(id: int, orderId: int, productId: int, quantity: int, price: int)

  /** A row of `wishlists`. */
  datatype WishlistEntry = WishlistEntry(id: int, userId: int, productId: int, createdAt: int)

  /** A row of `wishlist_notifications`, attached to one wishlist row; `kind` is the `type`
      column and `isRead` the 0/1 `is_read` column. */
  datatype Notification = Notification(id: int, wishlistId: int, kind: string, isRead: int,
                                       createdAt: int)

  /** A row of `community_posts`; every column but the id and timestamp is nullable. */
  datatype Post = Post(id: int, title: Option<string>, content: Option<string>,
                       snippet: Option<string>, image: Option<string>, authorId: Option<int>,
                       createdAt: int)

  /** A row of `comments`. */
  datatype Comment = Comment(id: int, postId: int, userId: int, message: string, createdAt: int)

  /** The whole database. `clock` is the current time, read by every insert as `created_at`;
      the environment advances it, the handlers never do. */
  datatype Store = Store(users: seq<User>, products: seq<Product>, images: seq<ProductImage>,
                         cart: seq<CartItem>, orders: seq<Order>, orderItems: seq<OrderItem>,
                         wishlists: seq<WishlistEntry>, notifications: seq<Notification>,
                         posts: seq<Post>, comments: seq<Comment>, clock: int)

  /** An identifier larger than every existing one: the AUTO_INCREMENT value of an insert. */
  function NextId<T>(rows: seq<T>, id: T -> int): (n: int)
    ensures n >= 1
    ensures forall i :: 0 <= i < |rows| ==> id(rows[i]) < n
  {
    if |rows| == 0 then 1
    else
      var last := id(rows[|rows| - 1]);
      var prev := NextId(rows[..|rows| - 1], id);
      if last + 1 > prev then last + 1 else prev
  }

  /** MySQL's conversion of a string to an integer in a comparison with an integer column: leading
      white space and one sign are skipped and the longest decimal digit prefix is read; a
      string with no leading digits converts to 0. */
  function KeyOf(s: string): (k: int)
    ensures k != 0 ==> exists i :: 0 <= i < |s| && DigitIn(s[i], 10).Some?
  {
    var t := TrimStart(s);
    var neg := |t| > 0 && t[0] == '-';
    var u := if |t| > 0 && (t[0] == '-' || t[0] == '+') then t[1..] else t;
    var n := DigitRun(u, 10);
    var m: int := ValueIn(u[..n], 10);
    if n > 0 then
      assert u[0] in s;
      if neg then -m else m
    else 0
  }

  /** The value a request field takes when bound to an integer placeholder; None is SQL NULL,
      which equals nothing. */
  function Key(v: Val): (k: Option<int>)
    ensures v.Num? ==> k == Some(v.n)
    ensures (v.Undefined? || v.Null?) <==> k.None?
  {
    match v
    case Undefined => None
    case Null => None
    case Num(n) => Some(n)
    case Str(s) => Some(KeyOf(s))
  }

  /** `column = ?` for an integer column and a bound value. */
  predicate Is(column: int, key: Option<int>) {
    key == Some(column)
  }

  /** A digit string reads back as the number it spells. */
  lemma KeyOfIntToString(n: int)
    ensures KeyOf(IntToString(n)) == n
  {
    var m: nat := if n < 0 then -n else n;
    var d := NatToString(m);
    ValueOfNatToString(m);
    assert d + "" == d;
    DigitRunOfLiteral(d, "", 10);
    DecimalDigitIsPlain(d[0]);
    var s := IntToString(n);
    TrimStartNoSpace(s);
    if n < 0 {
      assert s[1..] == d;
    }
    assert d[..|d|] == d;
  }
}
