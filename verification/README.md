# MamaCycle marketplace backend: a Dafny model

This project models the rules inside the MamaCycle marketplace API, an Express and MySQL
service for second-hand baby goods. Sellers list products that an admin approves or rejects.
Each product carries up to five images, one of them primary. Shoppers keep a cart and a
wishlist, check out into orders, and write community posts and comments. Admins see every
order, grouped with its items.

The database is an immutable value, `Db.Store`, with one sequence of rows per table:

- `users`, `products`, `product_images`;
- `cart_items`, `orders`, `order_items`;
- `wishlists`, `wishlist_notifications`;
- `community_posts`, `comments`.

Rows keep insertion order. A query without `ORDER BY` returns rows in that order.

Each request handler is a pure function. It takes the store and the request and returns a
`Http.Handled` value with three parts:

- the new store;
- the reply: a status with a body, or a status with a message;
- the public ids passed to the image host's destroy call.

The two transactions are checkout and set-primary. Each takes an optional fault: the statement
that throws. When a statement throws, the store comes back unchanged.

The modules follow the repository's layout:

| module | what it covers |
|---|---|
| `Db` | the tables and MySQL's coercion of bound values |
| `Js` | the JavaScript built-ins the handlers rely on: truthiness, `trim`, `parseInt`, `Number`, `split`, `includes` |
| `Products`, `ProductImages` | the two product models |
| `Catalog` | the product controller |
| `Cart`, `Orders`, `Wishlist`, `Community`, `Comments` | the other models and controllers |
| `Users` | the profile handlers of the user controller, which no router mounts |
| `UserRoutes` | the handlers written inline in the users router |
| `Auth` | sign-up and log-in |
| `ImageHost` | public-id extraction |
| `Seqs`, `Sorting`, `Wrappers`, `Http` | generic helpers |

## Model

| member | source | states |
|---|---|---|
| Db.NextId | controllers/orderController.js:46-51 | An inserted row's id is positive and larger than the id of every row still in the table. |
| Db.KeyOf | models/productModel.js:21-30 | A string id bound against an integer column reads as its leading decimal number. A string with no digits matches id 0. |
| Db.Key | models/cartModel.js:16-21 | A number in a request body binds as itself. `undefined` and `null` bind as SQL NULL, which matches no row. |
| Js.ParseIntIgnoresSuffix | controllers/userController.js:11-13 | The id check `isNaN(parseInt(id))` is lenient: a decimal literal followed by other text passes and reads as that literal. |
| Js.ParseIntOfNumber | controllers/orderController.js:22-25 | `parseInt` of a numeric user id is that id, so a numeric id always passes checkout's format check. |
| Js.NumberRejectsSuffix | controllers/cartController.js:40-42 | `isNaN` is strict where `parseInt` is lenient: a quantity like "12abc" is refused. |
| Js.TrimEmptyIffBlank | controllers/commentController.js:20 | `message.trim()` is empty exactly when every character of the message is white space. |
| Js.IncludesIffOccurs | controllers/productController.js:383 | `path.includes('cloudinary')` holds exactly when the word occurs at some position of the path. |
| ImageHost.PublicId | controllers/productController.js:386-390 | The public id always contains the `/` the template puts between folder and file name. |
| ImageHost.PublicIdOfUrl | controllers/productController.js:386-390 | For a URL `<prefix>/<folder>/<name>.<ext>`, the public id is `<folder>/<name>`, whatever the prefix and the extension contain. |
| ImageHost.LastTwoSegments | controllers/productController.js:386-389 | Splitting `<prefix>/<folder>/<file>` at `/` ends with the folder and then the file. |
| ImageHost.PublicIdWithoutFolder | controllers/communityController.js:103-107 | A path without `/` has no second-to-last segment, so the folder is spelt "undefined". |
| Products.ApprovedProducts | models/productModel.js:4-20 | The public listing holds only approved products, and every approved product is in it. |
| Products.PendingProducts | models/productModel.js:47-66 | The moderation queue is exactly the pending products, rearranged newest first. |
| Products.ProductById | models/productModel.js:21-30 | The lookup returns a product with that id when one exists, and nothing when none does. |
| Products.NumericPrice | models/productModel.js:34 | A string price goes through `parseFloat`; a number is used as it is. |
| Products.CreateProduct | models/productModel.js:32-46 | A price that is NaN throws before any insert. Otherwise one row with a fresh id is appended, holding the given columns, the parsed price and the status (pending when none is given). Nothing else changes. |
| Products.UpdateProductStatus | models/productModel.js:68-70 | Only the status of the matching product changes. Every other column and row stays. |
| Products.UpdateProductStatusIdempotent | models/productModel.js:68-70 | Setting the same status twice is the same as setting it once. |
| Products.ProductByIdAfterUpdate | models/productModel.js:68-70 | After the update, the lookup finds the same product with the new status, and finds nothing when it found nothing before. |
| Products.DeleteProductById | models/productModel.js:72-74 | The product goes, and the foreign key's cascade removes its images. Other products and their images stay. No row is added to either table. |
| ProductImages.ImagesOf | models/productImageModel.js:4-9 | `WHERE product_id = ?` selects exactly the product's image rows. |
| ProductImages.ListedBeforeIsPreorder | models/productImageModel.js:6 | `ORDER BY is_primary DESC, created_at ASC` is total and transitive, so sorting by it is well defined. |
| ProductImages.GetProductImages | models/productImageModel.js:4-9 | Returns exactly the product's images, rearranged with primary images first and older images before newer ones. |
| ProductImages.GetProductImagesScoped | models/productImageModel.js:4-9 | Every listed image is one of the product's image rows, and the list is as long as the product's image set. |
| ProductImages.AddImage | models/productImageModel.js:20-36 | Appends one row with a fresh id. An empty path is stored as NULL, and a missing flag defaults to 0. Nothing else changes. |
| ProductImages.ClearPrimary | models/productImageModel.js:45-48 | The product's images get flag 0. Other products' rows are untouched. |
| ProductImages.FlagPrimary | models/productImageModel.js:51-54 | Only a row matching both the image id and the product id gets flag 1. |
| ProductImages.SetPrimaryImage | models/productImageModel.js:39-64 | Commits exactly when no statement throws. A throw rolls everything back. After a commit, an image of the product is primary exactly when it is the chosen one. Other products' rows and every other column are unchanged. |
| ProductImages.SetPrimaryLeavesOnePrimary | models/productImageModel.js:44-54 | With unique image ids, the product ends with at most one primary image, and it is the chosen one. |
| ProductImages.SetPrimaryOfForeignImage | models/productImageModel.js:45-54 | Choosing an image that is not the product's leaves the product with no primary image. |
| ProductImages.SetPrimaryIdempotent | models/productImageModel.js:39-64 | Setting the same primary twice is the same as setting it once. |
| ProductImages.DeleteImage | models/productImageModel.js:67-72 | A row is deleted exactly when both its id and its product id match. All other rows stay. |
| ProductImages.DeleteAllProductImages | models/productImageModel.js:75-80 | The product keeps no image. Every image of another product stays. |
| Catalog.DisplayImage | controllers/productController.js:41 | Picks the url of the first primary image when that url is truthy, else the first image's url, else null. |
| Catalog.DisplayImageIsAnImage | controllers/productController.js:74 | A display image that is not null is the url of one of the images. |
| Catalog.View | controllers/productController.js:65-69 | An image is shown with its id and path, and as primary exactly when `is_primary === 1`. |
| Catalog.Views | controllers/productController.js:249-253 | One view per image, in the same order. |
| Catalog.DisplayOfListingIsFirst | controllers/productController.js:74 | In listing order a primary image comes first, so the display image is simply the first image's path. |
| Catalog.ViewProduct | controllers/productController.js:61-76 | The single-product reply carries the product, its images in listing order, and the display image chosen from them. |
| Catalog.ListingEntries | controllers/productController.js:26-36 | A product without images still carries the one image-less entry of the outer join. A failed JSON parse yields no entries. |
| Catalog.ListApproved | controllers/productController.js:20-52 | Lists every approved product, in table order, with its display image. `has_multiple_images` holds exactly when there is more than one entry. |
| Catalog.HasMultipleIffImages | controllers/productController.js:43 | For a product whose entries parsed, `has_multiple_images` holds exactly when it has more than one image row. |
| Catalog.PendingEntries | controllers/productController.js:207-220 | Each `||`-separated entry is parsed on its own, and the entries that fail are dropped. |
| Catalog.ListPending | controllers/productController.js:197-241 | Lists every pending product, newest first, with its display image. |
| Catalog.GetById | controllers/productController.js:55-81 | Replies 404 exactly when no product has the id. Otherwise it replies 200 with that stored product, its images in listing order and its display image (`ViewProduct`). The store is unchanged. |
| Catalog.ListImages | controllers/productController.js:244-260 | The reply is the views of the product's images in listing order (primary first, then oldest first): one per image of the product, and no image of another product. |
| Catalog.UploadPath | controllers/productController.js:143-153 | The stored path is `secure_url` when truthy, else `path`. A file with neither is skipped. |
| Catalog.AddUploads | controllers/productController.js:132-159 | One row is appended per usable upload, after the existing rows. Nothing else changes. |
| Catalog.AddUploadsRow | controllers/productController.js:143-158 | The k-th new row holds the k-th usable file's path and belongs to the product. It is flagged primary only when it comes from the file at array index 0. |
| Catalog.AddUploadsFreshIds | controllers/productController.js:158 | Every new image row's id is larger than every id before it. |
| Catalog.Column | controllers/productController.js:107-116 | A truthy request value binds as its integer. |
| Catalog.RequestedStatus | controllers/productController.js:100 | A new product is approved exactly when the request's status is the string "approved". It is never rejected. |
| Catalog.Create | controllers/productController.js:84-194 | Missing fields, then missing files, are refused with 400 before any write. The reply is a 500 with nothing written exactly when the request is complete and the price does not parse. On success the reply is 201 and one product row is added: it carries the request's name, description, parsed price, seller, kind, condition (null when falsy) and category, and it is the product the reply returns. One image row per usable upload follows, the k-th holding the k-th usable upload's path. Only the upload at index 0 is primary. |
| Catalog.Publish | controllers/productController.js:107-181 | The request fails, with a 500 and nothing written, exactly when the price does not parse. Otherwise only the product and image tables change. The product is inserted with the given fields, the requested status and an id above every existing one, and the reply returns that row. Its images follow, the k-th holding the k-th usable upload's path, with only the index-0 upload flagged primary. |
| Catalog.ImagesOfAppended | controllers/productController.js:282-304 | Appending rows of a product grows that product's image count by the number appended. |
| Catalog.AddProductImages | controllers/productController.js:263-326 | Sending no files is a 400. A batch that would take the product past 5 images, counting every file sent, is a 400 with nothing added. For a product that does not exist, a batch with a usable upload is a 500 with nothing written. Otherwise every usable upload is added, all flagged primary exactly when the product had no image before, and the reply lists the product's images in listing order. The product never ends with more than 5 images. |
| Catalog.Attach | controllers/productController.js:281-312 | The accepted batch appends one row per usable upload after the existing rows, each of the product and flagged primary exactly when the product had no image. A batch without a usable upload writes nothing. The reply is 201 with the product's images in listing order, and the product stays within 5 images. |
| Catalog.SetPrimary | controllers/productController.js:329-348 | On commit the reply lists the updated images. A throw in the transaction is a 500 with nothing changed. |
| Catalog.DestroyIds | controllers/productController.js:485-502 | There is one destroy per image whose path is hosted, in the images' order, each for that image's public id, and none when no image path is hosted. |
| Catalog.Target | controllers/productController.js:357 | The target is the image whose id equals `parseInt(imageId)`. When no image of the product has that id, there is none. |
| Catalog.Successor | controllers/productController.js:376 | The promoted image is the first image in listing order whose id differs from the deleted one. |
| Catalog.DeleteProductImage | controllers/productController.js:351-413 | An image that is not the product's is a 404. A product's only image is refused with 400. Deleting the primary promotes the first other image. A failed promotion is a 500, but the deletion stands. A hosted path is destroyed only on success. |
| Catalog.SurvivesDeletion | controllers/productController.js:371 | Every other image of the product survives the deletion. |
| Catalog.DeletionLeavesAnImage | controllers/productController.js:364-380 | Deleting one of two or more images leaves at least one, with or without a promotion. |
| Catalog.DeleteKeepsAnImage | controllers/productController.js:364-366 | A successful deletion never leaves the product without images. |
| Catalog.MisreadIdKeepsImage | controllers/productController.js:357-371 | When `parseInt` and MySQL read the image id differently ("0x10"), a non-primary target is found, the reply is 200 and its hosted file is destroyed, yet its row stays. |
| Catalog.DeletePrimaryPromotes | controllers/productController.js:374-380 | Deleting the primary image makes another image of the product primary. |
| Catalog.PromotedIsPrimary | controllers/productController.js:378 | The promoted row is flagged primary and still belongs to the product. |
| Catalog.Moderate | controllers/productController.js:416-471 | The status update runs. A missing product then fails with 500 and no change. Otherwise the reply is the product with the new status, and no other column changes. |
| Catalog.ApproveProduct | controllers/productController.js:416-442 | The reply's product is approved. |
| Catalog.RejectProduct | controllers/productController.js:445-471 | The reply's product is rejected. |
| Catalog.ModerationControlsListing | controllers/productController.js:416-471 | An approved product appears in the public listing, and a rejected one does not. |
| Catalog.DeleteProduct | controllers/productController.js:474-509 | The product and its images go. One destroy is issued per hosted image it had, in listing order, each for that image's public id. |
| Cart.PrimaryImages | models/cartModel.js:10 | The joined images are exactly the product's rows with `is_primary = 1`. |
| Cart.RowsOf | models/cartModel.js:3-14 | A cart row yields one listing row per primary image of its product, or one row when there is none. Each row's image is the primary path, falling back to the product's image. |
| Seqs.FlattenSource | models/cartModel.js:3-14 | Every row of a one-to-many join is the m-th output of some input row. |
| Seqs.FlattenHas | models/cartModel.js:3-14 | Every output of every input row appears in the one-to-many join. |
| Cart.Joined | models/cartModel.js:9 | The inner join finds a product with the cart row's id when one exists, and reports none exactly when no product has it. |
| Cart.Listing | models/cartModel.js:3-14 | A cart row yields no listing row exactly when its product is gone. |
| Cart.RowsFromRow | models/cartModel.js:3-14 | Every listed row is one of the rows `RowsOf` gives for a cart row of the requested user and that row's product. |
| Cart.ListedFromId | models/cartModel.js:5 | A listed row carries the id and the quantity of the cart row it comes from. |
| Cart.GetCart | controllers/cartController.js:3-11 | Every listed row comes from one of the user's own cart rows: it has that row's id and is one of the rows `RowsOf` gives for it and its existing product (name, price, description, quantity, image). |
| Cart.RowsFromComplete | models/cartModel.js:8-10 | Every cart row of the user whose product exists is listed. |
| Cart.GetCartListsEveryLine | controllers/cartController.js:3-11 | The cart listing shows every line of the user whose product still exists. |
| Cart.RowOf | models/cartModel.js:18 | Finds the user's row for the product when one exists, and reports none when none does. |
| Cart.AddToCart | models/cartModel.js:16-21 | A new (user, product) pair gets a new row with the quantity. An existing pair's quantity is increased by it. Nothing else changes. |
| Cart.QuantityOfUpdate | models/cartModel.js:18 | Replacing one row changes a pair's total by exactly the difference that row makes. |
| Cart.QuantityOfAppend | models/cartModel.js:17 | Appending a row adds its quantity to its own pair's total only. |
| Cart.AddToCartAdds | models/cartModel.js:16-21 | The upsert adds exactly the quantity to the pair's total and changes no other pair's total. |
| Cart.AddToCartKeepsPairsUnique | models/cartModel.js:16-21 | The upsert keeps (user, product) pairs unique. |
| Cart.RemoveFromCart | models/cartModel.js:23-25 | Exactly the rows with that id are deleted. Every other row stays. |
| Cart.UpdateQuantity | models/cartModel.js:26-28 | The line's quantity is replaced, not added to. Other lines and columns stay. |
| Cart.UpdateQuantityOverwrites | models/cartModel.js:26-28 | Setting a quantity twice is setting the second one. |
| Cart.Add | controllers/cartController.js:13-26 | A falsy user, product or quantity is a 400 with the cart unchanged. Otherwise the upsert runs once. |
| Cart.AddZeroQuantity | controllers/cartController.js:15-17 | A quantity of the number 0 is refused, but the string "0" is accepted. |
| Cart.SetQuantity | controllers/cartController.js:38-51 | A falsy quantity, or one `isNaN` rejects, is a 400 with the cart unchanged. Otherwise the quantity is set. |
| Cart.Remove | controllers/cartController.js:28-36 | The line is removed and the reply confirms it. |
| Orders.ProductOf | controllers/orderController.js:31 | The join finds the product with that id when one exists. |
| Orders.LinesOf | controllers/orderController.js:28-34 | Checkout reads at most one line per cart row of the user. |
| Orders.LinesOfAllRows | controllers/orderController.js:28-34 | When every product still exists, it reads exactly one line per cart row. |
| Orders.LinesOfRows | controllers/orderController.js:28-34 | Each line is a cart row of the user, with that row's product and quantity and the product's current price. |
| Orders.ReduceIsSum | controllers/orderController.js:43 | The `reduce` fold equals the sum of price × quantity. |
| Orders.SumCons | controllers/orderController.js:43 | A sum splits into its first line and the rest. |
| Orders.TotalPrice | controllers/orderController.js:43 | The computed total is the sum of price × quantity over the lines. |
| Orders.ItemsFor | controllers/orderController.js:54-59 | One order item per line, in order, each with the order id and the line's product, quantity and price. |
| Orders.ItemsTotalOfItemsFor | controllers/orderController.js:43-59 | The written items add up to the order's total. |
| Orders.Validate | controllers/orderController.js:16-25 | A falsy field is "Missing required fields". A user id that `parseInt` rejects is "Invalid user ID". |
| Orders.Transaction | controllers/orderController.js:28-88 | An empty cart is refused with nothing written. A throw rolls back to the original store. Otherwise the order is placed under a fresh id. |
| Orders.Checkout | controllers/orderController.js:5-89 | A throw or a refusal leaves the store unchanged. The store changes only when the order is placed, so checkout is atomic. |
| Orders.Place | controllers/orderController.js:46-62 | The writes touch only orders, order items and the cart, and they always change the store. |
| Orders.PlaceWrites | controllers/orderController.js:43-62 | One order holds the caller's id, the lines' total and the contact fields. There is one item per line with the new order id and the line's product, quantity and price, and the items add up to the total. The caller's cart is emptied, every other user's cart is kept, and nothing else is touched. |
| Orders.CheckoutPlaces | controllers/orderController.js:5-70 | A placed order carries an id above every existing one, and the writes are those of `Place` for the caller's cart. |
| Orders.CheckoutSucceeds | controllers/orderController.js:5-70 | With no fault, a valid request against a non-empty cart places the order. |
| Orders.CheckoutEmptyCart | controllers/orderController.js:36-40 | An empty cart is "Cart is empty" with nothing written. |
| Orders.PrimaryPath | controllers/orderController.js:114 | The subquery yields the path of a primary image of the product, or null when it has none. |
| Orders.ItemImage | controllers/orderController.js:122-125 | An item's image is `http://localhost:3000/` plus the primary path. It is null when there is no primary image or the path is empty, with no fallback to other images. |
| Orders.ItemDetails | controllers/orderController.js:112-119 | Shows only the order's own items whose product exists, each with its product's name and image. |
| Orders.ItemDetailsComplete | controllers/orderController.js:112-119 | Every item of the order whose product exists is shown. |
| Orders.UserOf | controllers/orderController.js:101 | The join finds the buyer with that id when one exists. |
| Orders.JoinedOrders | controllers/orderController.js:100-103 | Exactly the orders with the id whose buyer exists. |
| Orders.GetOrderById | controllers/orderController.js:92-132 | A falsy or non-numeric id is "Invalid order ID". An unknown order is "Order not found". Otherwise the reply holds the order, the buyer's name and its items. No caller check is made. |
| Orders.OrdersOfUser | controllers/orderController.js:143-146 | Exactly the user's orders, newest first. |
| Orders.GetUserOrders | controllers/orderController.js:135-175 | An invalid id is refused. Otherwise every order of the user is listed newest first, each with its items. |
| Wishlist.EntriesFor | models/wishlistModel.js:28-33 | Exactly the rows pairing the user with the product. |
| Wishlist.IsInWishlist | models/wishlistModel.js:28-33 | A product is on the wishlist exactly when some row pairs it with the user. |
| Wishlist.AddToWishlist | models/wishlistModel.js:36-41 | Appends one row with a fresh id. Nothing else changes, and uniqueness is not enforced here. |
| Wishlist.AddToWishlistCounts | models/wishlistModel.js:36-57 | After the insert the product is on the wishlist, and only this user's count grows, by one. |
| Wishlist.RemoveFromWishlist | models/wishlistModel.js:44-49 | Exactly the pair's rows are deleted, so the product is no longer on the wishlist. |
| Wishlist.RemoveFromWishlistCounts | models/wishlistModel.js:44-57 | The user's count drops by the number of rows deleted. |
| Wishlist.EntriesForUnique | models/wishlistModel.js:28-33 | With unique pairs, the lookup finds one row when the product is on the wishlist and none otherwise. |
| Wishlist.AtMostOneMatch | models/wishlistModel.js:28-33 | At most one matching position gives at most one match, and exactly one when there is one. |
| Wishlist.FilterKeepsPairsUnique | models/wishlistModel.js:44-49 | Deleting rows keeps pairs unique. |
| Wishlist.CreateNotification | models/wishlistModel.js:88-93 | Appends one unread notification with a fresh id. |
| Wishlist.CreateNotificationCounts | models/wishlistModel.js:88-103 | A new notification adds one to the unread count of its wishlist row's owner and to nobody else's. |
| Wishlist.MarkNotificationAsRead | models/wishlistModel.js:80-85 | The matching notifications read 1. Every other column and row is unchanged. |
| Wishlist.MarkNotificationAsReadIdempotent | models/wishlistModel.js:80-85 | Marking twice is marking once. |
| Wishlist.UnreadAfterMarking | models/wishlistModel.js:80-103 | Marking removes from the unread ones exactly those with the marked id. |
| Wishlist.MarkNotificationAsReadCounts | models/wishlistModel.js:96-103 | The unread count drops by exactly the number of the user's unread notifications with that id. |
| Wishlist.OwnerRow | models/wishlistModel.js:60-77 | Finds the user's wishlist row that the notification hangs on, when one exists. |
| Wishlist.NotificationRows | models/wishlistModel.js:60-77 | Only notifications on the user's own wishlist rows are listed. |
| Wishlist.NotificationRowsComplete | models/wishlistModel.js:60-77 | Every notification on one of the user's wishlist rows whose product exists is listed, joined with that product. |
| Wishlist.GetWishlistNotifications | models/wishlistModel.js:60-77 | The user's notifications, rearranged newest first. |
| Wishlist.GetWishlistNotificationsComplete | models/wishlistModel.js:60-77 | The endpoint's list holds every notification on the user's wishlist rows whose product exists. |
| Wishlist.ImageUrl | controllers/wishlistController.js:9-14 | A falsy path gives null. Otherwise the url starts with the request's origin and a `/`. |
| Wishlist.ImageUrlOnPosix | controllers/wishlistController.js:9-14 | Where the path separator is `/`, the path follows the origin unchanged. |
| Wishlist.Shown | models/wishlistModel.js:5-25 | A wishlist row shows its product only when that product exists and is approved. |
| Wishlist.Item | controllers/wishlistController.js:26-49 | Each item's image urls are rewritten through `getImageUrl`. The display image follows the primary-else-first rule, and it has multiple images exactly when there is more than one entry. |
| Wishlist.ItemsFrom | controllers/wishlistController.js:25-50 | One item per listed row, each for an approved product the user wished for. |
| Wishlist.GetUserWishlist | controllers/wishlistController.js:17-57 | Only the user's rows with approved products are listed, one item each. |
| Wishlist.ItemWithoutImages | controllers/wishlistController.js:46-48 | A product without image rows is shown with no image and not as having several. |
| Wishlist.Add | controllers/wishlistController.js:60-89 | A falsy product id is a 400. A product already on the wishlist is a 400 with nothing changed. Otherwise one row is added and the new count returned. |
| Wishlist.AddKeepsPairsUnique | controllers/wishlistController.js:60-89 | A successful add returns the old count plus one and keeps pairs unique. Adding the same product again is refused. |
| Wishlist.AddToWishlistKeepsUnique | models/wishlistModel.js:36-41 | Inserting a pair that is not there yet keeps pairs unique. |
| Wishlist.Remove | controllers/wishlistController.js:92-111 | The pair's rows go and the reply carries the user's new count. |
| Wishlist.RemoveCounts | controllers/wishlistController.js:92-111 | With unique pairs, the product is off the wishlist afterwards. The count drops by one exactly when the product was on it. |
| Wishlist.Check | controllers/wishlistController.js:114-127 | The answer is true exactly when a row pairs the user with the product. |
| Wishlist.Notifications | controllers/wishlistController.js:130-147 | The user's notifications newest first, each image placed behind the request's origin. |
| Wishlist.MarkRead | controllers/wishlistController.js:150-161 | Marks the notification read without checking who owns it. |
| Wishlist.UnreadNotificationCount | controllers/wishlistController.js:164-176 | The count is the number of unread notifications on the user's wishlist rows. |
| Community.OrNull | models/communityModel.js:17-23 | `x \|\| null` stores NULL exactly for a falsy value. |
| Community.IdOrNull | models/communityModel.js:22 | A falsy author id is stored as NULL. A truthy one is stored as its number. |
| Community.PathOrNull | models/communityModel.js:21 | A falsy image is stored as NULL. |
| Community.CreatePost | models/communityModel.js:15-29 | Appends one post whose fields are NULL exactly where the request's were falsy. |
| Community.UpdatePost | models/communityModel.js:31-44 | Without an image, the stored image is kept. With one, it is replaced. Only the matching post changes. |
| Community.DeletePost | models/communityModel.js:46-56 | The post and all its comments go. Other posts and comments stay. |
| Community.PostById | models/communityModel.js:58-63 | The lookup returns a post with that id when one exists, and nothing when none does. |
| Community.SortedPosts | models/communityModel.js:3-14 | Every post, rearranged newest first. |
| Community.AuthorOf | models/communityModel.js:10-11 | The outer join finds the author when that user exists. |
| Community.ViewPost | controllers/communityController.js:9-13 | The post with its author's name and image, which are null when the author is gone. The image is null when falsy. |
| Community.GetAll | controllers/communityController.js:4-20 | One view per post, newest first. |
| Community.Create | controllers/communityController.js:22-41 | A missing title, content or author id is a 400 with no insert. Otherwise the post is stored. |
| Community.CreateStoresRequired | controllers/communityController.js:25-35 | A stored post always has a title, content and author. |
| Community.DestroyImage | controllers/communityController.js:52-61 | The old image is destroyed only when it is a hosted path, and then under its public id. |
| Community.Update | controllers/communityController.js:43-81 | Updating an unknown post throws and is a 500. Otherwise the old image is destroyed only when a new one replaces a hosted one, and is kept when no file comes. |
| Community.UpdateImageRule | controllers/communityController.js:74 | The stored image is the new file when one comes, and the old image otherwise. |
| Community.Delete | controllers/communityController.js:83-123 | A non-numeric id is a 500. An unknown post is a 404. Only the author or an admin may delete, anyone else gets 403. A delete removes the post and its comments. |
| Community.DeleteAuthorised | controllers/communityController.js:95-97 | A non-admin who is not the author changes nothing. A successful delete leaves no post with that id and none of its comments. |
| Comments.CreateComment | controllers/commentController.js:24 | Appends one comment with a fresh id and the given post, user and message. |
| Comments.DeleteComment | controllers/commentController.js:55 | Exactly the comments with that id are deleted. |
| Comments.CommentById | controllers/commentController.js:41-45 | The lookup returns a comment with that id when one exists. |
| Comments.Thread | controllers/commentController.js:4-13 | The post's comments, rearranged oldest first. |
| Comments.ViewComment | controllers/commentController.js:4-13 | A comment with its writer's name and image, which are null when the user is gone. |
| Comments.GetByPostId | controllers/commentController.js:4-13 | A non-numeric post id is a 500. Otherwise the reply is the post's thread, oldest first. |
| Comments.CheckMessage | controllers/commentController.js:20 | A message is accepted exactly when it is a string that is not blank after trimming. A number throws. |
| Comments.Create | controllers/commentController.js:15-30 | A falsy post id or a blank message is a 400. Otherwise the message is stored as sent, under the caller's id. |
| Comments.CreateKeepsWhiteSpace | controllers/commentController.js:20-24 | A message of spaces only is refused, but surrounding spaces are stored. |
| Comments.Delete | controllers/commentController.js:32-61 | An id of 0 or NaN is a 400. An unknown comment is a 404. Only the owner or an admin may delete, anyone else gets 403 with nothing changed. |
| Comments.DeleteOwnOnly | controllers/commentController.js:48-55 | A non-admin cannot remove another user's comment. A delete removes exactly that comment. |
| Users.UserById | controllers/userController.js:15-19 | The lookup returns a user with that id when one exists. |
| Users.ProfileImage | controllers/userController.js:23-25 | A truthy image outside `uploads/` gets `uploads/profiles/` in front. Any other value is kept. |
| Users.ProfileImageIdempotent | controllers/userController.js:23-25 | Normalising twice is normalising once. |
| Users.ValidEmail | controllers/userController.js:54-57 | The email format test accepts exactly the strings the regular expression `^[^\s@]+@[^\s@]+\.[^\s@]+$` matches. |
| Users.AllPlainSlice | controllers/userController.js:54 | A slice is plain exactly when its positions in the whole string are. |
| Users.EmailShapeFirstAt | controllers/userController.js:54 | Any match puts its `@` at the first `@` of the string. |
| Users.EmailShapeFromDot | controllers/userController.js:54 | A dot that splits the plain text after the `@` gives a match. |
| Users.EmailShapeAt | controllers/userController.js:54 | Given the first `@`, the regular expression matches exactly when the email format test's conditions hold. |
| Users.EmailsAccepted | controllers/userController.js:54-57 | "a@b.c" and "a@.b.c" pass the format check. |
| Users.EmailsRefused | controllers/userController.js:54-57 | "a@b", "a@@b.c" and "@b.c" fail the format check. |
| Users.GetUserProfile | controllers/userController.js:6-35 | An id `parseInt` rejects is a 400. An unknown user is a 404. Otherwise the reply is the profile with its image normalised. |
| Users.SetNameEmail | controllers/userController.js:59 | Only the matching user's name and email change. |
| Users.UpdateUserProfile | controllers/userController.js:39-89 | The id, the required fields and the email format are checked, each a 400 with nothing written. An unknown user is a 404, and an email held by another user is a 409. Otherwise the name and email are replaced. |
| Users.SetNameEmailKeepsDistinct | controllers/userController.js:59 | Setting an email no other user holds keeps emails distinct. |
| Users.UpdateKeepsEmailsUnique | controllers/userController.js:59-82 | Profile updates never create two users with the same email. |
| Users.UploadedPath | controllers/userController.js:106 | The stored path is `uploads/profiles/` followed by the file name. |
| Users.SetImage | controllers/userController.js:115 | Only the matching user's image changes. |
| Users.UploadProfileImage | controllers/userController.js:92-133 | An invalid id, a missing file and an unknown user are refused in that order. Otherwise the image path is stored and returned. |
| Users.UploadThenProfile | controllers/userController.js:23-25 | After an upload, the profile shows exactly the stored path. |
| UserRoutes.IndexOf | routes/users.js:48 | `indexOf` returns the first position holding the value, or -1. |
| UserRoutes.IndexOfAtMost | routes/users.js:48 | A value's first position is at or before any position holding it. |
| UserRoutes.FirstOccurrencesLate | routes/users.js:48 | The filter keeps only values whose first occurrence is in the part scanned. |
| UserRoutes.FirstOccurrencesHead | routes/users.js:48 | The first value kept has the earliest first occurrence. |
| UserRoutes.FirstOccurrencesOrdered | routes/users.js:48 | Values are kept in the order of their first occurrences. |
| UserRoutes.FirstOccurrencesComplete | routes/users.js:48 | Every value is kept. |
| UserRoutes.Distinct | routes/users.js:48 | The same values as the input, each once, in first-occurrence order. |
| UserRoutes.JoinedItems | routes/users.js:38-44 | The items whose product exists, in table order, each with its product's name. |
| UserRoutes.ProductIds | routes/users.js:48 | Every item's product id appears once, and only those ids appear. |
| UserRoutes.Pool | routes/users.js:50-65 | Only images of the listed products, and none when the list is empty. |
| UserRoutes.PoolKeepsProductImages | routes/users.js:55-70 | The pool holds every image of a listed product. |
| UserRoutes.AdminImage | routes/users.js:70-83 | The path of the first image with `is_primary === 1`, else the first image's path, else null. An empty path shows as null. |
| UserRoutes.ProcessedItems | routes/users.js:68-85 | Each joined item gets the image the rule picks among all of its product's images. |
| UserRoutes.UserName | routes/users.js:31-32 | The buyer's name, or null when the buyer is gone. |
| UserRoutes.NewestFirst | routes/users.js:30-34 | Every order, rearranged newest first. |
| UserRoutes.AdminOrdersView | routes/users.js:16-99 | With no orders the reply is an empty list. Otherwise every order is listed newest first with its buyer's name and exactly the items that belong to it. |
| UserRoutes.AdminOrdersShowsEveryItem | routes/users.js:87-91 | Every item whose product exists appears under its own order with the image the rule picks. |
| UserRoutes.ShownImage | routes/users.js:129 | A missing image is replaced by the default picture, so the shown image is never empty. |
| UserRoutes.GetProfile | routes/users.js:123-132 | An unknown user is a 404. Otherwise the reply is the profile with the default picture filled in. |
| UserRoutes.UpdateProfile | routes/users.js:135-145 | Nothing is validated. An unknown user or a taken email throws and gets no reply. Otherwise the name and email are written and returned. |
| UserRoutes.UpdateThenGet | routes/users.js:135-145 | What an update returns is what a later read of that id returns. |
| Auth.UserByEmail | models/userModel.js:11-16 | The lookup returns the first user with that email, and nothing when none has it. |
| Auth.Login | controllers/authController.js:5-31 | An unknown email and a wrong password get the same 401. Otherwise the token is signed over the stored id, email and role, and the reply carries the stored public fields. |
| Auth.CreateUser | models/userModel.js:3-8 | Appends one user with the role fixed to `user` and no image. |
| Auth.Signup | controllers/authController.js:32-48 | A registered email is a 400 with no user created. Otherwise the user is stored with the hashed password and the plain role. |
| Auth.SignupKeepsEmailsUnique | controllers/authController.js:35-45 | Sign-up keeps emails unique, and every user it adds has role `user`. |
| Auth.SignupThenLogin | controllers/authController.js:5-48 | Whoever signs up can log in with the same password and gets the new account with role `user`. |
| Auth.LoginHidesWhichCheckFailed | controllers/authController.js:8-12 | Every failed login gets the same reply, whichever check failed. |

## Left out

- The user count, admin user list and admin user delete in routes/users.js (lines 10-13 and 101-120) are plain queries with no rule to state.
- The Cloudinary profile upload route (routes/users.js:148-153) is left out for the same reason.
- The authentication and admin middleware are not modelled. Handlers take the caller's id and role as parameters.
- Route wiring, logging, `db.js` and server start-up are plumbing and are left out.
- Store failures are modelled only in the two transactions, checkout and set-primary. Other handlers' 500 replies on a database error are left out.
- Request fields are JSON values limited to undefined, null, strings and integers. Arrays, objects, booleans and fractional numbers are not modelled.
- Prices are integers. `parseFloat` is a parameter whose None result stands for NaN.
- `Number` and unary `+` are modelled for integer literals only. Fractions, exponents and `Infinity` read as NaN.
- `Db.KeyOf` does not model MySQL's reading of fractional or exponent strings.
- `Catalog.DeletionLeavesAnImage`, `Catalog.DeleteKeepsAnImage` and `Catalog.DeletePrimaryPromotes` require an image id that `parseInt` and MySQL read alike (`DecimalId`). For an id they read differently, such as "0x10", the target row is not deleted at all; `Catalog.MisreadIdKeepsImage` states that case for a non-primary image.
- `Db.NextId`: the next id is one more than the largest id still in the table, so after the newest row is deleted its id is handed out again. MySQL's AUTO_INCREMENT counter never reuses an id: when `RemoveFromCart` deletes a cart's only line, id 5, the next `AddToCart` gets id 1 here and 6 in MySQL. A stale client still holding an earlier line's id 1 would then act on the new line. The model keeps no per-table counter.
- Comparisons of strings to string columns are exact. MySQL's case-insensitive collation is not modelled.
- bcrypt hashing, bcrypt comparison and JWT signing are function parameters. Their behaviour is not modelled.
- The JSON parse of `GROUP_CONCAT` output is a parameter that says whether a product's or an entry's text parsed.
- The model assumes each product appears once in `GROUP BY` output. It does not model one listing row per product collapsing several category rows.
- `getImageUrl`'s protocol, host and platform path separator are parameters.
- `getPrimaryImage` in models/productImageModel.js:12-17 is not called by any modelled handler.
- The image host's upload middleware is not modelled, and its destroy failures are swallowed.
- `Catalog.AddUploads`: its own contract gives only the frame, the row count and the unchanged prefix. The per-row facts are in the lemmas `Catalog.AddUploadsRow` and `Catalog.AddUploadsFreshIds`.
- `Orders.LinesOf`: its own contract bounds only the length. What each line holds is in `Orders.LinesOfRows`, and completeness is in `Orders.LinesOfAllRows`.
- `Catalog.Create`: the "Product not found after creation" branch (controllers/productController.js:165-167) cannot be reached after a successful insert, so it is not modelled.
- `Users.UpdateUserProfile`: the "User not found after update" branch (controllers/userController.js:68-70) cannot be reached once the update matched a row, so it is not modelled.
- `Users.UpdateUserProfile`: MySQL's zero affected rows for an update that changes nothing is treated as a match.
- `Community.DeletePost`: the two statements run without a transaction. The model performs both together.
- `Orders.Checkout`: the connection calls in the code come from a pool interface the repository's database module does not provide. The model treats connecting as a statement that may throw.
- Row locking is not modelled: checkout takes no locks.
- `Wishlist.Add`, `Wishlist.Remove`, `Wishlist.Check`, `Wishlist.Notifications`, `Wishlist.MarkRead`, `Wishlist.UnreadNotificationCount` and `Wishlist.GetUserWishlist`: models/wishlistModel.js calls `db.query` and `db.execute` as if they returned promises, but db.js:26 creates a callback connection. As written, the handlers do not get rows. The model gives the store semantics the queries state.
- `Comments.GetByPostId`, `Comments.Create` and `Comments.Delete`: the same holds for models/commentModel.js (lines 6, 23, 32 and 39). The model gives the queries' store semantics.
- `Users.GetUserProfile`, `Users.UpdateUserProfile` and `Users.UploadProfileImage`: the controller destructures the result of `await db.query(...)` on the callback connection (controllers/userController.js:15, 59, 66, 109 and 115). The model gives the queries' store semantics.
- `Orders.GetOrderById` and `Orders.GetUserOrders`: the same promise-style calls at controllers/orderController.js:100, 112, 143 and 152. The model gives the queries' store semantics.
- `ProductImages.SetPrimaryImage` and `Catalog.SetPrimary`: the transaction starts with `db.promise().getConnection()` (models/productImageModel.js:40), a pool method that a single connection's promise wrapper does not provide. The model gives the transaction's intended semantics. A failure to connect is not a separate step: the controller's catch makes it a 500 with nothing written, the same outcome as a throw at `BeginTx`.
- `Auth.Login`: an undefined `email` makes the driver reject the bind, and an undefined `password` makes bcrypt's comparison reject. Either way no reply is sent. The model takes both fields as strings and does not model this no-reply outcome.
- `Auth.Signup`: an undefined `email` makes the driver reject the bind, and an undefined `password` makes bcrypt's hash reject, with no reply sent. The model takes the fields as strings and does not model this outcome.
- `UserRoutes.UpdateProfile`: an undefined `name` or `email` makes the driver reject the bind, with no reply sent. The model takes both as strings and does not model this outcome.
- `Db.KeyOf`: it is also applied to request strings bound into integer columns of INSERT statements (Cart.Add, Wishlist.Add, Comments.Create, Community.IdOrNull, ProductImages.AddImage, the seller and category ids of Catalog.Create/Catalog.Publish, the user id of Orders.Place/Orders.Checkout, and the quantity of Cart.SetQuantity's UPDATE). That assumes MySQL's non-strict `sql_mode`. Under strict mode a value like "12abc" is an error (a 500) instead of being stored as 12.
- Other handlers are not modelled: categories, reviews, FAQ search (a fuzzy search with a floating-point score) and the order model, which repeats checkout's queries.
- Order lookups (`Orders.GetOrderById`) apply no authorisation, because the code makes no caller check.
- Order item images (`Orders.ItemImage`) use the primary image only, with no fallback to the first image, as in the code.
