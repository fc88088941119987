/** The wishlist: membership, adding and removing, the approved-only listing, and the
    notifications attached to wishlist rows with their read flag. */
module Wishlist {
  import opened Wrappers
  import opened Seqs
  import opened Sorting
  import opened Js
  import opened Db
  import opened Http
  import Orders
  import Catalog
  import ProductImages

  // ------------------------------------------------------------------------------------------
  // Membership

  /** The row pairs the user with the product bound as `productId`. */
  predicate Matches(w: WishlistEntry, userId: int, productId: Option<int>) {
    w.userId == userId && Is(w.productId, productId)
  }

  /** `SELECT * FROM wishlists WHERE user_id = ? AND product_id = ?`. */
  function EntriesFor(s: Store, userId: int, productId: Option<int>): (r: seq<WishlistEntry>)
    ensures forall i :: 0 <= i < |r| ==> r[i] in s.wishlists && Matches(r[i], userId, productId)
    ensures forall i :: 0 <= i < |s.wishlists| && Matches(s.wishlists[i], userId, productId) ==>
              s.wishlists[i] in r
  {
    Filter(s.wishlists, (w: WishlistEntry) => Matches(w, userId, productId))
  }

  /** The product is on the user's wishlist exactly when some row pairs them. */
  function IsInWishlist(s: Store, userId: int, productId: Option<int>): (b: bool)
    ensures b <==> exists i :: 0 <= i < |s.wishlists| && Matches(s.wishlists[i], userId, productId)
  {
    var rows := EntriesFor(s, userId, productId);
    if |rows| > 0 then
      assert rows[0] in s.wishlists;
      true
    else false
  }

  /** `SELECT COUNT(*) FROM wishlists WHERE user_id = ?`. */
  function WishlistCount(s: Store, userId: int): nat {
    Count(s.wishlists, (w: WishlistEntry) => w.userId == userId)
  }

  /** `INSERT INTO wishlists (user_id, product_id)`: one row with a fresh id and the current
      time is appended and nothing else changes. No uniqueness is enforced here. */
  function AddToWishlist(s: Store, userId: int, productId: int): (s': Store)
    ensures |s'.wishlists| == |s.wishlists| + 1
    ensures s' == s.(wishlists := s.wishlists + [s'.wishlists[|s.wishlists|]])
    ensures var w := s'.wishlists[|s.wishlists|];
      w.userId == userId && w.productId == productId && w.createdAt == s.clock &&
      forall i :: 0 <= i < |s.wishlists| ==> s.wishlists[i].id < w.id
  {
    var id := NextId(s.wishlists, (w: WishlistEntry) => w.id);
    s.(wishlists := s.wishlists + [WishlistEntry(id, userId, productId, s.clock)])
  }

  /** After an insert the product is on the wishlist and only the inserting user's count grows,
      by one. */
  lemma AddToWishlistCounts(s: Store, userId: int, productId: int, u: int)
    ensures IsInWishlist(AddToWishlist(s, userId, productId), userId, Some(productId))
    ensures WishlistCount(AddToWishlist(s, userId, productId), u) ==
              WishlistCount(s, u) + (if u == userId then 1 else 0)
  {
    var s' := AddToWishlist(s, userId, productId);
    var w := s'.wishlists[|s.wishlists|];
    assert Matches(s'.wishlists[|s.wishlists|], userId, Some(productId));
    FilterConcat(s.wishlists, [w], (x: WishlistEntry) => x.userId == u);
  }

  /** `DELETE FROM wishlists WHERE user_id = ? AND product_id = ?`: exactly the matching rows
      go, so the product is no longer on the user's wishlist. */
  function RemoveFromWishlist(s: Store, userId: int, productId: Option<int>): (s': Store)
    ensures s' == s.(wishlists := s'.wishlists)
    ensures forall i :: 0 <= i < |s'.wishlists| ==>
              s'.wishlists[i] in s.wishlists && !Matches(s'.wishlists[i], userId, productId)
    ensures forall i :: 0 <= i < |s.wishlists| && !Matches(s.wishlists[i], userId, productId) ==>
              s.wishlists[i] in s'.wishlists
    ensures !IsInWishlist(s', userId, productId)
  {
    s.(wishlists := Filter(s.wishlists, (w: WishlistEntry) => !Matches(w, userId, productId)))
  }

  /** A removal lowers the user's count by the number of rows it deleted. */
  lemma RemoveFromWishlistCounts(s: Store, userId: int, productId: Option<int>)
    ensures WishlistCount(RemoveFromWishlist(s, userId, productId), userId) ==
              WishlistCount(s, userId) - |EntriesFor(s, userId, productId)|
  {
    CountAfterRemoval(s.wishlists, (w: WishlistEntry) => !Matches(w, userId, productId),
                      (w: WishlistEntry) => w.userId == userId,
                      (w: WishlistEntry) => Matches(w, userId, productId));
  }

  /** No (user, product) pair occurs twice: the invariant the add endpoint's check keeps. */
  predicate UniquePairs(ws: seq<WishlistEntry>) {
    forall i, j ::
      (0 <= i < |ws| && 0 <= j < |ws| && ws[i].userId == ws[j].userId &&
       ws[i].productId == ws[j].productId) ==> i == j
  }

  /** With unique pairs a (user, product) lookup finds at most one row. */
  lemma {:induction false} EntriesForUnique(s: Store, userId: int, productId: Option<int>)
    requires UniquePairs(s.wishlists)
    ensures |EntriesFor(s, userId, productId)| == if IsInWishlist(s, userId, productId) then 1 else 0
  {
    var hit := (w: WishlistEntry) => Matches(w, userId, productId);
    AtMostOneMatch(s.wishlists, hit);
  }

  /** A sequence with at most one position satisfying `p` has at most one element in its
      filter; with one such position, exactly one. */
  lemma {:induction false} AtMostOneMatch(ws: seq<WishlistEntry>, p: WishlistEntry -> bool)
    requires forall i, j :: 0 <= i < |ws| && 0 <= j < |ws| && p(ws[i]) && p(ws[j]) ==> i == j
    ensures |Filter(ws, p)| == if exists i :: 0 <= i < |ws| && p(ws[i]) then 1 else 0
  {
    if |ws| > 0 {
      if p(ws[0]) {
        FilterNone(ws[1..], p);
      } else {
        AtMostOneMatch(ws[1..], p);
        if exists i :: 0 <= i < |ws| && p(ws[i]) {
          var i :| 0 <= i < |ws| && p(ws[i]);
          assert ws[1..][i - 1] == ws[i];
        }
      }
    }
  }

  /** Removing rows keeps pairs unique. */
  lemma {:induction false} FilterKeepsPairsUnique(ws: seq<WishlistEntry>, keep: WishlistEntry -> bool)
    requires UniquePairs(ws)
    ensures UniquePairs(Filter(ws, keep))
  {
    if |ws| > 0 {
      var t := ws[1..];
      assert UniquePairs(t) by {
        forall i, j | 0 <= i < |t| && 0 <= j < |t| && t[i].userId == t[j].userId &&
                      t[i].productId == t[j].productId
          ensures i == j
        {
          assert ws[i + 1] == t[i] && ws[j + 1] == t[j];
        }
      }
      FilterKeepsPairsUnique(t, keep);
      if keep(ws[0]) {
        var rest := Filter(t, keep);
        forall k | 0 <= k < |rest|
          ensures !(rest[k].userId == ws[0].userId && rest[k].productId == ws[0].productId)
        {
          var j :| 0 <= j < |t| && t[j] == rest[k];
          assert ws[j + 1] == rest[k];
        }
      }
    }
  }

  // ------------------------------------------------------------------------------------------
  // Notifications

  /** The notification hangs on one of the user's wishlist rows. */
  predicate OwnedBy(ws: seq<WishlistEntry>, n: Notification, userId: int) {
    exists i :: 0 <= i < |ws| && ws[i].id == n.wishlistId && ws[i].userId == userId
  }

  /** The unread notifications on the user's wishlist rows. */
  predicate Unread(ws: seq<WishlistEntry>, n: Notification, userId: int) {
    n.isRead == 0 && OwnedBy(ws, n, userId)
  }

  /** `SELECT COUNT(*) … JOIN wishlists … WHERE w.user_id = ? AND wn.is_read = 0`. */
  function UnreadCount(s: Store, userId: int): nat {
    Count(s.notifications, (n: Notification) => Unread(s.wishlists, n, userId))
  }

  /** `INSERT INTO wishlist_notifications (wishlist_id, type)`: a new unread notification with a
      fresh id and the current time. */
  function CreateNotification(s: Store, wishlistId: int, kind: string): (s': Store)
    ensures |s'.notifications| == |s.notifications| + 1
    ensures s' == s.(notifications := s.notifications + [s'.notifications[|s.notifications|]])
    ensures var n := s'.notifications[|s.notifications|];
      n.wishlistId == wishlistId && n.kind == kind && n.isRead == 0 && n.createdAt == s.clock &&
      forall i :: 0 <= i < |s.notifications| ==> s.notifications[i].id < n.id
  {
    var id := NextId(s.notifications, (n: Notification) => n.id);
    s.(notifications := s.notifications + [Notification(id, wishlistId, kind, 0, s.clock)])
  }

  /** A new notification adds one to the unread count of the owner of its wishlist row and to
      nobody else's. */
  lemma CreateNotificationCounts(s: Store, wishlistId: int, kind: string, u: int)
    ensures UnreadCount(CreateNotification(s, wishlistId, kind), u) ==
              UnreadCount(s, u) +
              (if exists i :: 0 <= i < |s.wishlists| && s.wishlists[i].id == wishlistId &&
                              s.wishlists[i].userId == u then 1 else 0)
  {
    var s' := CreateNotification(s, wishlistId, kind);
    var n := s'.notifications[|s.notifications|];
    FilterConcat(s.notifications, [n], (x: Notification) => Unread(s.wishlists, x, u));
  }

  /** The read flag after marking the notification bound as `id`. */
  function MarkOne(n: Notification, id: Option<int>): Notification {
    if Is(n.id, id) then n.(isRead := 1) else n
  }

  /** `UPDATE wishlist_notifications SET is_read = 1 WHERE id = ?`: the matching rows read 1
      and every other column and row is as it was. */
  function MarkNotificationAsRead(s: Store, id: Option<int>): (s': Store)
    ensures s' == s.(notifications := s'.notifications)
    ensures |s'.notifications| == |s.notifications|
    ensures forall i :: 0 <= i < |s.notifications| ==>
              s'.notifications[i].(isRead := s.notifications[i].isRead) == s.notifications[i] &&
              (Is(s.notifications[i].id, id) ==> s'.notifications[i].isRead == 1) &&
              (!Is(s.notifications[i].id, id) ==> s'.notifications[i] == s.notifications[i])
  {
    s.(notifications := Map(s.notifications, (n: Notification) => MarkOne(n, id)))
  }

  /** Marking twice is marking once. */
  lemma MarkNotificationAsReadIdempotent(s: Store, id: Option<int>)
    ensures MarkNotificationAsRead(MarkNotificationAsRead(s, id), id) == MarkNotificationAsRead(s, id)
  {
    var s1 := MarkNotificationAsRead(s, id);
    var s2 := MarkNotificationAsRead(s1, id);
    assert s2.notifications == s1.notifications;
  }

  /** Over any sequence of notifications, marking removes from the unread ones exactly those with
      the marked id. */
  lemma {:induction false} UnreadAfterMarking(ns: seq<Notification>, ws: seq<WishlistEntry>,
                                              id: Option<int>, u: int)
    ensures Count(Map(ns, (n: Notification) => MarkOne(n, id)), (n: Notification) => Unread(ws, n, u))
         == Count(ns, (n: Notification) => Unread(ws, n, u))
          - Count(ns, (n: Notification) => Is(n.id, id) && Unread(ws, n, u))
  {
    if |ns| > 0 {
      var f := (n: Notification) => MarkOne(n, id);
      assert Map(ns, f)[1..] == Map(ns[1..], f);
      assert OwnedBy(ws, MarkOne(ns[0], id), u) == OwnedBy(ws, ns[0], u);
      UnreadAfterMarking(ns[1..], ws, id, u);
    }
  }

  /** Marking a notification read lowers the user's unread count by the number of the user's
      unread notifications with that id, and by nothing else. */
  lemma MarkNotificationAsReadCounts(s: Store, id: Option<int>, u: int)
    ensures UnreadCount(MarkNotificationAsRead(s, id), u) ==
              UnreadCount(s, u) -
              Count(s.notifications, (n: Notification) => Is(n.id, id) && Unread(s.wishlists, n, u))
  {
    UnreadAfterMarking(s.notifications, s.wishlists, id, u);
  }

  /** A notification as the notification list shows it. */
  datatype NotificationView = NotificationView(id: int, kind: string, isRead: int, createdAt: int,
                                               productId: int, productName: string, price: int,
                                               image: Option<string>)

  /** The wishlist row of `userId` a notification hangs on, if any. */
  function OwnerRow(ws: seq<WishlistEntry>, n: Notification, userId: int): (r: Option<WishlistEntry>)
    ensures r.Some? ==> r.value in ws && r.value.id == n.wishlistId && r.value.userId == userId
    ensures r.None? <==> !OwnedBy(ws, n, userId)
  {
    match Find(ws, (w: WishlistEntry) => w.id == n.wishlistId && w.userId == userId)
    case None => None
    case Some(k) => Some(ws[k])
  }

  /** The notifications of `ns` on the user's wishlist rows, joined with their rows' products,
      in table order; the image is the product's first primary image path. A notification whose
      product is gone drops out of the inner join. */
  function NotificationRows(s: Store, ns: seq<Notification>, userId: int)
    : (r: seq<NotificationView>)
    ensures |r| <= |ns|
    ensures forall k :: 0 <= k < |r| ==>
              exists n :: n in ns && OwnedBy(s.wishlists, n, userId) && n.id == r[k].id &&
                          n.kind == r[k].kind && n.isRead == r[k].isRead &&
                          n.createdAt == r[k].createdAt
  {
    if |ns| == 0 then []
    else
      var rest := NotificationRows(s, ns[1..], userId);
      var n := ns[0];
      assert forall x :: x in ns[1..] ==> x in ns;
      match OwnerRow(s.wishlists, n, userId)
      case None => rest
      case Some(w) =>
        match Orders.ProductOf(s.products, w.productId)
        case None => rest
        case Some(p) =>
          [NotificationView(n.id, n.kind, n.isRead, n.createdAt, p.id, p.name, p.price,
                            Orders.PrimaryPath(s, p.id))] + rest
  }

  /** The row the join gives for notification `n` on wishlist row `w` of product `p`. */
  function JoinedNotification(s: Store, n: Notification, p: Product): NotificationView {
    NotificationView(n.id, n.kind, n.isRead, n.createdAt, p.id, p.name, p.price,
                     Orders.PrimaryPath(s, p.id))
  }

  /** Every notification on one of the user's wishlist rows whose product exists is listed,
      joined with that product. */
  lemma {:induction false} NotificationRowsComplete(s: Store, ns: seq<Notification>, userId: int, i: nat)
    requires i < |ns| && OwnerRow(s.wishlists, ns[i], userId).Some?
    requires Orders.ProductOf(s.products, OwnerRow(s.wishlists, ns[i], userId).value.productId).Some?
    ensures JoinedNotification(s, ns[i],
              Orders.ProductOf(s.products, OwnerRow(s.wishlists, ns[i], userId).value.productId).value)
            in NotificationRows(s, ns, userId)
    decreases |ns|
  {
    var rest := NotificationRows(s, ns[1..], userId);
    var n := ns[0];
    var row := OwnerRow(s.wishlists, n, userId);
    var joined := row.Some? && Orders.ProductOf(s.products, row.value.productId).Some?;
    if joined {
      var p := Orders.ProductOf(s.products, row.value.productId).value;
      assert NotificationRows(s, ns, userId) == [JoinedNotification(s, n, p)] + rest;
    } else {
      assert NotificationRows(s, ns, userId) == rest;
    }
    if i > 0 {
      assert ns[1..][i - 1] == ns[i];
      NotificationRowsComplete(s, ns[1..], userId, i - 1);
    }
  }

  /** The order of the notification list: newest first. */
  predicate NewerNotification(a: NotificationView, b: NotificationView) {
    a.createdAt >= b.createdAt
  }

  /** The user's notifications, newest first: a rearrangement of the joined rows. */
  function GetWishlistNotifications(s: Store, userId: int): (r: seq<NotificationView>)
    ensures multiset(r) == multiset(NotificationRows(s, s.notifications, userId))
    ensures SortedBy(r, NewerNotification)
    ensures forall k :: 0 <= k < |r| ==>
              exists n :: n in s.notifications && OwnedBy(s.wishlists, n, userId) && n.id == r[k].id
  {
    var rows := NotificationRows(s, s.notifications, userId);
    SortIsSorted(rows, NewerNotification);
    var r := Sort(rows, NewerNotification);
    forall k | 0 <= k < |r|
      ensures exists n :: n in s.notifications && OwnedBy(s.wishlists, n, userId) && n.id == r[k].id
    {
      assert r[k] in multiset(rows);
    }
    r
  }

  /** The notification list holds every notification on the user's wishlist rows whose
      product still exists. */
  lemma GetWishlistNotificationsComplete(s: Store, userId: int, i: nat)
    requires i < |s.notifications| && OwnerRow(s.wishlists, s.notifications[i], userId).Some?
    requires Orders.ProductOf(s.products,
               OwnerRow(s.wishlists, s.notifications[i], userId).value.productId).Some?
    ensures JoinedNotification(s, s.notifications[i],
              Orders.ProductOf(s.products,
                OwnerRow(s.wishlists, s.notifications[i], userId).value.productId).value)
            in GetWishlistNotifications(s, userId)
  {
    NotificationRowsComplete(s, s.notifications, userId, i);
    var v := JoinedNotification(s, s.notifications[i],
               Orders.ProductOf(s.products,
                 OwnerRow(s.wishlists, s.notifications[i], userId).value.productId).value);
    assert v in multiset(NotificationRows(s, s.notifications, userId));
    assert v in multiset(GetWishlistNotifications(s, userId));
  }

  // ------------------------------------------------------------------------------------------
  // The wishlist listing

  /** `getImageUrl`: a falsy path gives null; otherwise the path, its platform separators `sep`
      turned into '/', behind the request's origin ("protocol://host"). */
  function ImageUrl(origin: string, sep: char, path: Option<string>): (r: Option<string>)
    ensures r.None? <==> !Present(path)
    ensures r.Some? ==> |r.value| > |origin| && r.value[..|origin| + 1] == origin + "/"
  {
    if Present(path) then Some(origin + "/" + Join(Split(path.value, sep), '/')) else None
  }

  /** On a platform whose separator is '/', the path is put behind the origin unchanged. */
  lemma ImageUrlOnPosix(origin: string, path: string)
    requires path != ""
    ensures ImageUrl(origin, '/', Some(path)) == Some(origin + "/" + path)
  {
    JoinSplit(path, '/');
  }

  /** An item of the wishlist listing. */
  datatype WishItem = WishItem(wishlistId: int, product: Product, image: Option<string>,
                               images: seq<Catalog.ImageView>, hasMultipleImages: bool)

  /** The product a wishlist row shows: the product it names, when that exists and is approved. */
  function Shown(s: Store, w: WishlistEntry): (r: Option<Product>)
    ensures r.Some? ==> r.value in s.products && r.value.id == w.productId && r.value.status == Approved
    ensures r.None? ==> forall i :: 0 <= i < |s.products| && s.products[i].id == w.productId ==>
              s.products[i].status != Approved || exists j :: 0 <= j < i && s.products[j].id == w.productId
  {
    match Orders.ProductOf(s.products, w.productId)
    case None => None
    case Some(p) => if p.status == Approved then Some(p) else None
  }

  /** A wishlist row is listed when it is the user's and its product is shown. */
  predicate Listed(s: Store, w: WishlistEntry, userId: int) {
    w.userId == userId && Shown(s, w).Some?
  }

  /** The listing entry of one shown product: its image entries with hosted urls, the display
      image chosen from them, and whether there is more than one. */
  function Item(s: Store, w: WishlistEntry, p: Product, origin: string, sep: char,
                intact: int -> bool): (r: WishItem)
    ensures r.wishlistId == w.id && r.product == p
    ensures |r.images| == |Catalog.ListingEntries(s, p, intact(p.id))|
    ensures forall k :: 0 <= k < |r.images| ==>
              r.images[k] == Catalog.ListingEntries(s, p, intact(p.id))[k].(
                url := ImageUrl(origin, sep, Catalog.ListingEntries(s, p, intact(p.id))[k].url))
    ensures r.image == Catalog.DisplayImage(r.images)
    ensures r.hasMultipleImages <==> |r.images| > 1
  {
    var images := Map(Catalog.ListingEntries(s, p, intact(p.id)),
                      (v: Catalog.ImageView) => v.(url := ImageUrl(origin, sep, v.url)));
    WishItem(w.id, p, Catalog.DisplayImage(images), images, |images| > 1)
  }

  /** The listing entries of the rows `ws` for `userId`, in table order. */
  function ItemsFrom(s: Store, ws: seq<WishlistEntry>, userId: int, origin: string, sep: char,
                     intact: int -> bool): (r: seq<WishItem>)
    ensures |r| == Count(ws, (w: WishlistEntry) => Listed(s, w, userId))
    ensures forall k :: 0 <= k < |r| ==>
              r[k].product.status == Approved && r[k].product in s.products &&
              exists w :: w in ws && w.userId == userId && w.id == r[k].wishlistId &&
                          w.productId == r[k].product.id &&
                          r[k] == Item(s, w, r[k].product, origin, sep, intact)
  {
    if |ws| == 0 then []
    else
      var rest := ItemsFrom(s, ws[1..], userId, origin, sep, intact);
      var w := ws[0];
      assert forall x :: x in ws[1..] ==> x in ws;
      if w.userId != userId then rest
      else
        match Shown(s, w)
        case None => rest
        case Some(p) => [Item(s, w, p, origin, sep, intact)] + rest
  }

  /** GET /api/wishlist: one entry per wishlist row of the user whose product exists and is
      approved, and only those. `intact(id)` says whether product `id`'s concatenated image
      entries parsed. */
  function GetUserWishlist(s: Store, userId: int, origin: string, sep: char,
                           intact: int -> bool): (h: Handled<seq<WishItem>>)
    ensures h.store == s && h.destroyed == [] && h.reply.Ok? && h.reply.status == 200
    ensures |h.reply.body| == Count(s.wishlists, (w: WishlistEntry) => Listed(s, w, userId))
    ensures forall k :: 0 <= k < |h.reply.body| ==>
              var item := h.reply.body[k];
              item.product.status == Approved &&
              exists i :: 0 <= i < |s.wishlists| && s.wishlists[i].userId == userId &&
                          s.wishlists[i].id == item.wishlistId &&
                          s.wishlists[i].productId == item.product.id
  {
    var items := ItemsFrom(s, s.wishlists, userId, origin, sep, intact);
    Handled(s, Ok(200, items), [])
  }

  /** A listed product without image rows carries the image-less entry of the outer join, so it
      is shown with no image and not as having several. */
  lemma ItemWithoutImages(s: Store, w: WishlistEntry, p: Product, origin: string, sep: char,
                          intact: int -> bool)
    requires intact(p.id) && ProductImages.ImagesOf(s, Some(p.id)) == []
    ensures var item := Item(s, w, p, origin, sep, intact);
      item.image.None? && !item.hasMultipleImages && |item.images| == 1
  {
  }

  // ------------------------------------------------------------------------------------------
  // Endpoints

  /** A reply carrying the user's wishlist size. */
  datatype Counted = Counted(message: string, count: nat)

  /** POST /api/wishlist: a falsy product id, or a product already on the wishlist, is refused
      with nothing changed; otherwise one row is inserted and the new count returned. */
  function Add(s: Store, userId: int, productId: Val): (h: Handled<Counted>)
    ensures !Truthy(productId) ==> h == Refuse(s, 400, "Product ID is required")
    ensures Truthy(productId) && IsInWishlist(s, userId, Key(productId)) ==>
              h == Refuse(s, 400, "Product already in wishlist")
    ensures Truthy(productId) && !IsInWishlist(s, userId, Key(productId)) ==>
              h.store == AddToWishlist(s, userId, Key(productId).value) &&
              h.reply == Ok(201, Counted("Product added to wishlist", WishlistCount(h.store, userId)))
    ensures h.destroyed == []
  {
    if !Truthy(productId) then Refuse(s, 400, "Product ID is required")
    else if IsInWishlist(s, userId, Key(productId)) then Refuse(s, 400, "Product already in wishlist")
    else
      var s' := AddToWishlist(s, userId, Key(productId).value);
      Handled(s', Ok(201, Counted("Product added to wishlist", WishlistCount(s', userId))), [])
  }

  /** A successful add puts the product on the wishlist, returns the old count plus one, and
      keeps pairs unique; adding the same product again is refused. */
  lemma AddKeepsPairsUnique(s: Store, userId: int, productId: Val)
    requires UniquePairs(s.wishlists)
    ensures UniquePairs(Add(s, userId, productId).store.wishlists)
    ensures Add(s, userId, productId).reply.Ok? ==>
              IsInWishlist(Add(s, userId, productId).store, userId, Key(productId)) &&
              Add(s, userId, productId).reply.body.count == WishlistCount(s, userId) + 1 &&
              Add(Add(s, userId, productId).store, userId, productId).reply ==
                Fail(400, "Product already in wishlist")
  {
    if Truthy(productId) && !IsInWishlist(s, userId, Key(productId)) {
      var p := Key(productId).value;
      var s' := AddToWishlist(s, userId, p);
      assert Add(s, userId, productId).store == s';
      AddToWishlistCounts(s, userId, p, userId);
      AddToWishlistKeepsUnique(s, userId, p);
      assert Add(s', userId, productId) == Refuse(s', 400, "Product already in wishlist");
    }
  }

  /** Inserting a pair that is not there yet keeps pairs unique. */
  lemma AddToWishlistKeepsUnique(s: Store, userId: int, productId: int)
    requires UniquePairs(s.wishlists) && !IsInWishlist(s, userId, Some(productId))
    ensures UniquePairs(AddToWishlist(s, userId, productId).wishlists)
  {
    var ws := AddToWishlist(s, userId, productId).wishlists;
    var n := |s.wishlists|;
    forall i, j | 0 <= i < |ws| && 0 <= j < |ws| && ws[i].userId == ws[j].userId &&
                  ws[i].productId == ws[j].productId
      ensures i == j
    {
      if i < n && j < n {
        assert ws[i] == s.wishlists[i] && ws[j] == s.wishlists[j];
      } else if i < n {
        assert ws[i] == s.wishlists[i] && Matches(s.wishlists[i], userId, Some(productId));
      } else if j < n {
        assert ws[j] == s.wishlists[j] && Matches(s.wishlists[j], userId, Some(productId));
      }
    }
  }

  /** DELETE /api/wishlist/:productId: the pair's rows go and the new count is returned. */
  function Remove(s: Store, userId: int, productId: string): (h: Handled<Counted>)
    ensures h.store == RemoveFromWishlist(s, userId, Some(KeyOf(productId)))
    ensures h.reply == Ok(200, Counted("Product removed from wishlist", WishlistCount(h.store, userId)))
    ensures h.destroyed == []
  {
    var s' := RemoveFromWishlist(s, userId, Some(KeyOf(productId)));
    Handled(s', Ok(200, Counted("Product removed from wishlist", WishlistCount(s', userId))), [])
  }

  /** With unique pairs, a remove leaves the product off the wishlist and lowers the count by
      one exactly when the product was on it; pairs stay unique. */
  lemma RemoveCounts(s: Store, userId: int, productId: string)
    requires UniquePairs(s.wishlists)
    ensures var h := Remove(s, userId, productId);
      !IsInWishlist(h.store, userId, Some(KeyOf(productId))) &&
      UniquePairs(h.store.wishlists) &&
      h.reply.body.count == WishlistCount(s, userId) -
                            (if IsInWishlist(s, userId, Some(KeyOf(productId))) then 1 else 0)
  {
    var p := Some(KeyOf(productId));
    RemoveFromWishlistCounts(s, userId, p);
    EntriesForUnique(s, userId, p);
    FilterKeepsPairsUnique(s.wishlists, (w: WishlistEntry) => !Matches(w, userId, p));
  }

  /** GET /api/wishlist/check/:productId. */
  function Check(s: Store, userId: int, productId: string): (h: Handled<bool>)
    ensures h.store == s && h.destroyed == [] && h.reply.Ok? && h.reply.status == 200
    ensures h.reply.body <==> exists i :: 0 <= i < |s.wishlists| &&
                                s.wishlists[i].userId == userId &&
                                s.wishlists[i].productId == KeyOf(productId)
  {
    Handled(s, Ok(200, IsInWishlist(s, userId, Some(KeyOf(productId)))), [])
  }

  /** GET /api/wishlist/notifications: the user's notifications, newest first, each image
      behind the request's origin. */
  function Notifications(s: Store, userId: int, origin: string, sep: char)
    : (h: Handled<seq<NotificationView>>)
    ensures h.store == s && h.destroyed == [] && h.reply.Ok? && h.reply.status == 200
    ensures |h.reply.body| == |GetWishlistNotifications(s, userId)|
    ensures forall k :: 0 <= k < |h.reply.body| ==>
              var v := GetWishlistNotifications(s, userId)[k];
              h.reply.body[k] == v.(image := ImageUrl(origin, sep, v.image))
  {
    Handled(s, Ok(200, Map(GetWishlistNotifications(s, userId),
                           (v: NotificationView) => v.(image := ImageUrl(origin, sep, v.image)))), [])
  }

  /** PUT /api/wishlist/notifications/:id/read. No ownership check is made. */
  function MarkRead(s: Store, id: string): (h: Handled<string>)
    ensures h.store == MarkNotificationAsRead(s, Some(KeyOf(id)))
    ensures h.reply == Ok(200, "Notification marked as read") && h.destroyed == []
  {
    Handled(MarkNotificationAsRead(s, Some(KeyOf(id))), Ok(200, "Notification marked as read"), [])
  }

  /** GET /api/wishlist/notifications/count. */
  function UnreadNotificationCount(s: Store, userId: int): (h: Handled<nat>)
    ensures h.store == s && h.destroyed == []
    ensures h.reply == Ok(200, Count(s.notifications, (n: Notification) =>
                                       Unread(s.wishlists, n, userId)))
  {
    Handled(s, Ok(200, UnreadCount(s, userId)), [])
  }
}
