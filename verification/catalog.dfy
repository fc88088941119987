/** The product endpoints: listings with their display image, creation with uploads, the image
    set of a product (add with a cap, choose the primary, delete with promotion) and
    moderation. */
module Catalog {
  import opened Wrappers
  import opened Seqs
  import opened Sorting
  import opened Js
  import opened Db
  import opened Http
  import opened ImageHost
  import opened ProductImages
  import opened Products

  /** One image as a reply shows it. */
  datatype ImageView = ImageView(id: Option<int>, primary: bool, url: Option<string>)

  /** A product as the single-product endpoints show it. */
  datatype ProductView = ProductView(product: Product, image: Option<string>,
                                     images: seq<ImageView>)

  /** A product as the approved listing shows it. */
  datatype Listing = Listing(product: Product, image: Option<string>, images: seq<ImageView>,
                             hasMultipleImages: bool)

  /** `k` is the first image flagged primary. */
  predicate FirstPrimary(images: seq<ImageView>, k: int) {
    0 <= k < |images| && images[k].primary && forall j :: 0 <= j < k ==> !images[j].primary
  }

  /** The image a product is shown with: the url of the first primary image when that url is
      truthy, otherwise the first image's url, and null for a product without images. */
  function DisplayImage(images: seq<ImageView>): (r: Option<string>)
    ensures |images| == 0 ==> r.None?
    ensures forall k :: FirstPrimary(images, k) && Present(images[k].url) ==> r == images[k].url
    ensures (|images| > 0 && forall k :: FirstPrimary(images, k) ==> !Present(images[k].url))
              ==> r == images[0].url
  {
    if |images| == 0 then None
    else
      match Find(images, (v: ImageView) => v.primary)
      case Some(k) =>
        assert FirstPrimary(images, k);
        if Present(images[k].url) then images[k].url else images[0].url
      case None => images[0].url
  }

  /** The display image is one of the images' urls, or null. */
  lemma DisplayImageIsAnImage(images: seq<ImageView>)
    ensures DisplayImage(images).Some? ==>
              exists k :: 0 <= k < |images| && images[k].url == DisplayImage(images)
  {
    if |images| > 0 {
      assert images[0].url == DisplayImage(images) ||
             exists k :: FirstPrimary(images, k) && images[k].url == DisplayImage(images);
    }
  }

  /** An image row as the single-product endpoints show it: primary means `is_primary === 1`. */
  function View(img: ProductImage): (v: ImageView)
    ensures v.id == Some(img.id) && v.url == img.path && (v.primary <==> img.isPrimary == 1)
  {
    ImageView(Some(img.id), img.isPrimary == 1, img.path)
  }

  function Views(images: seq<ProductImage>): (r: seq<ImageView>)
    ensures |r| == |images| && forall i :: 0 <= i < |images| ==> r[i] == View(images[i])
  {
    Map(images, View)
  }

  /** Flags are 0 or 1, as every writer of the table stores. */
  predicate ZeroOneFlags(images: seq<ProductImage>) {
    forall i :: 0 <= i < |images| ==> images[i].isPrimary == 0 || images[i].isPrimary == 1
  }

  /** In the listing order a primary image, if any, comes first, so the display image of a
      listed product is simply the first image's url: the search for a primary is redundant. */
  lemma DisplayOfListingIsFirst(images: seq<ProductImage>)
    requires SortedBy(images, ListedBefore) && ZeroOneFlags(images)
    ensures DisplayImage(Views(images)) == (if |images| == 0 then None else images[0].path)
  {
  }

  /** The product view of the single-product endpoints. */
  function ViewProduct(s: Store, p: Product): (v: ProductView)
    ensures v.product == p && v.images == Views(GetProductImages(s, Some(p.id)))
    ensures v.image == DisplayImage(v.images)
  {
    var images := Views(GetProductImages(s, Some(p.id)));
    ProductView(p, DisplayImage(images), images)
  }

  // ------------------------------------------------------------------------------------------
  // Listings

  /** The image entries of one product in the approved listing. A product without images still
      carries one all-null entry, the image-less row of the outer join; a failed parse of the
      concatenated entries (`intact` false) yields no entries. A truthy `is_primary` counts as
      primary here. */
  function ListingEntries(s: Store, p: Product, intact: bool): (r: seq<ImageView>)
    ensures !intact ==> r == []
    ensures intact ==> |r| == (if |ImagesOf(s, Some(p.id))| == 0 then 1 else |ImagesOf(s, Some(p.id))|)
  {
    var rows := ImagesOf(s, Some(p.id));
    if !intact then []
    else if |rows| == 0 then [ImageView(None, false, None)]
    else Map(rows, (img: ProductImage) => ImageView(Some(img.id), img.isPrimary != 0, img.path))
  }

  /** GET /api/products: every approved product, in table order, with its display image.
      `intact(id)` says whether the listing's image entries of product `id` parsed. */
  function ListApproved(s: Store, intact: int -> bool): (r: seq<Listing>)
    ensures |r| == |ApprovedProducts(s)|
    ensures forall i :: 0 <= i < |r| ==>
              r[i].product == ApprovedProducts(s)[i] && r[i].product.status == Approved &&
              r[i].images == ListingEntries(s, r[i].product, intact(r[i].product.id)) &&
              r[i].image == DisplayImage(r[i].images)
    ensures forall i :: 0 <= i < |r| ==> (r[i].hasMultipleImages <==> |r[i].images| > 1)
  {
    Map(ApprovedProducts(s), (p: Product) =>
      var images := ListingEntries(s, p, intact(p.id));
      Listing(p, DisplayImage(images), images, |images| > 1))
  }

  /** A listed product whose entries parsed has "multiple images" exactly when it has more than
      one image row. */
  lemma HasMultipleIffImages(s: Store, intact: int -> bool, i: nat)
    requires i < |ListApproved(s, intact)|
    requires intact(ListApproved(s, intact)[i].product.id)
    ensures var l := ListApproved(s, intact)[i];
      l.hasMultipleImages <==> |ImagesOf(s, Some(l.product.id))| > 1
  {
  }

  /** The pending listing's image entries: as for the approved listing, but each entry is parsed
      on its own (`parses`, None standing for the all-null entry) and entries that fail are
      dropped; primary means `is_primary === 1`. */
  function PendingEntries(s: Store, p: Product, parses: Option<ProductImage> -> bool)
    : (r: seq<ImageView>)
    ensures var rows := ImagesOf(s, Some(p.id));
      var entries := if |rows| == 0 then [None] else Map(rows, (img: ProductImage) => Some(img));
      |r| == Count(entries, parses)
  {
    var rows := ImagesOf(s, Some(p.id));
    var entries := if |rows| == 0 then [None] else Map(rows, (img: ProductImage) => Some(img));
    Map(Filter(entries, parses), (e: Option<ProductImage>) =>
      match e
      case None => ImageView(None, false, None)
      case Some(img) => ImageView(Some(img.id), img.isPrimary == 1, img.path))
  }

  /** GET /api/products/pending: every pending product, newest first, with its display image. */
  function ListPending(s: Store, parses: Option<ProductImage> -> bool): (r: seq<ProductView>)
    ensures |r| == |PendingProducts(s)|
    ensures forall i :: 0 <= i < |r| ==>
              r[i].product == PendingProducts(s)[i] && r[i].product.status == Pending &&
              r[i].images == PendingEntries(s, r[i].product, parses) &&
              r[i].image == DisplayImage(r[i].images)
    ensures forall i, j :: 0 <= i < j < |r| ==> r[i].product.createdAt >= r[j].product.createdAt
  {
    Map(PendingProducts(s), (p: Product) =>
      var images := PendingEntries(s, p, parses);
      ProductView(p, DisplayImage(images), images))
  }

  /** GET /api/products/:id: 404 when no product has that id. */
  function GetById(s: Store, id: string): (h: Handled<ProductView>)
    ensures h.store == s && h.destroyed == []
    ensures h.reply.Fail? <==> ProductById(s, Some(KeyOf(id))).None?
    ensures h.reply.Fail? ==> h.reply == Fail(404, "Product not found")
    ensures h.reply.Ok? ==> h.reply.status == 200 && Is(h.reply.body.product.id, Some(KeyOf(id)))
    ensures h.reply.Ok? ==> h.reply.body == ViewProduct(s, ProductById(s, Some(KeyOf(id))).value)
  {
    match ProductById(s, Some(KeyOf(id)))
    case None => Refuse(s, 404, "Product not found")
    case Some(p) => Handled(s, Ok(200, ViewProduct(s, p)), [])
  }

  /** GET /api/products/:id/images: one view per image of the product, in listing order, and
      no image of another product. */
  function ListImages(s: Store, id: string): (h: Handled<seq<ImageView>>)
    ensures h.store == s && h.destroyed == [] && h.reply.Ok? && h.reply.status == 200
    ensures |h.reply.body| == |ImagesOf(s, Some(KeyOf(id)))|
    ensures forall k :: 0 <= k < |h.reply.body| ==>
              exists img :: img in ImagesOf(s, Some(KeyOf(id))) && h.reply.body[k] == View(img)
    ensures h.reply.body == Views(GetProductImages(s, Some(KeyOf(id))))
  {
    var ofProduct := ImagesOf(s, Some(KeyOf(id)));
    var images := GetProductImages(s, Some(KeyOf(id)));
    GetProductImagesScoped(s, Some(KeyOf(id)));
    var views := Views(images);
    forall k | 0 <= k < |views|
      ensures exists img :: img in ofProduct && views[k] == View(img)
    {
      assert images[k] in ofProduct && views[k] == View(images[k]);
    }
    Handled(s, Ok(200, views), [])
  }

  // ------------------------------------------------------------------------------------------
  // Uploads

  /** An uploaded file as the upload middleware describes it. */
  datatype Upload = Upload(secureUrl: Option<string>, path: Option<string>)

  /** The path an upload is stored under: the host's secure url, else the local path; None when
      the file has neither and is skipped. */
  function UploadPath(f: Upload): (r: Option<string>)
    ensures r.Some? ==> r.value != ""
    ensures r.None? <==> !Present(f.secureUrl) && !Present(f.path)
    ensures Present(f.secureUrl) ==> r == f.secureUrl
  {
    if Present(f.secureUrl) then f.secureUrl else if Present(f.path) then f.path else None
  }

  predicate HasPath(f: Upload) {
    UploadPath(f).Some?
  }

  /** Inserting the uploads one after another as images of product `productId`: the first file
      is flagged `first` and every later one `rest`; files without a path are skipped. The new
      rows are appended after the existing ones, one per kept file; nothing else changes. */
  function AddUploads(s: Store, productId: int, files: seq<Upload>, first: int, rest: int)
    : (s': Store)
    ensures s' == s.(images := s'.images)
    ensures |s'.images| == |s.images| + Count(files, HasPath)
    ensures s'.images[..|s.images|] == s.images
    decreases |files|
  {
    if |files| == 0 then s
    else
      match UploadPath(files[0])
      case None =>
        assert Filter(files, HasPath) == Filter(files[1..], HasPath);
        AddUploads(s, productId, files[1..], rest, rest)
      case Some(p) =>
        var s1 := AddImage(s, productId, p, Some(first)).0;
        assert Filter(files, HasPath) == [files[0]] + Filter(files[1..], HasPath);
        var s' := AddUploads(s1, productId, files[1..], rest, rest);
        assert s'.images[..|s.images|] == s'.images[..|s1.images|][..|s.images|];
        s'
  }

  /** The `k`-th row after the old ones is the image of the `k`-th kept file, in order: it
      belongs to the product, carries the upload's path and the current time, and is flagged
      `first` when it comes from the file at index 0, `rest` otherwise. */
  lemma {:induction false} AddUploadsRow(s: Store, productId: int, files: seq<Upload>,
                                         first: int, rest: int, k: int)
    requires |s.images| <= k < |AddUploads(s, productId, files, first, rest).images|
    ensures var img := AddUploads(s, productId, files, first, rest).images[k];
      img.productId == productId && img.createdAt == s.clock &&
      img.path == UploadPath(Filter(files, HasPath)[k - |s.images|]) &&
      img.isPrimary == (if k == |s.images| && HasPath(files[0]) then first else rest)
    decreases |files|
  {
    assert |files| > 0;
    match UploadPath(files[0])
    case None =>
      assert Filter(files, HasPath) == Filter(files[1..], HasPath);
      AddUploadsRow(s, productId, files[1..], rest, rest, k);
    case Some(p) =>
      var s1 := AddImage(s, productId, p, Some(first)).0;
      assert Filter(files, HasPath) == [files[0]] + Filter(files[1..], HasPath);
      var s' := AddUploads(s1, productId, files[1..], rest, rest);
      assert AddUploads(s, productId, files, first, rest) == s';
      if k == |s.images| {
        assert s'.images[k] == s'.images[..|s1.images|][k] == s1.images[k];
      } else {
        AddUploadsRow(s1, productId, files[1..], rest, rest, k);
        assert |s1.images| == |s.images| + 1 && s1.clock == s.clock;
        assert Filter(files, HasPath)[k - |s.images|] == Filter(files[1..], HasPath)[k - |s1.images|];
      }
  }

  /** Every new row has a larger id than every row before it: the ids are fresh and
      increasing. */
  lemma {:induction false} AddUploadsFreshIds(s: Store, productId: int, files: seq<Upload>,
                                              first: int, rest: int, j: int, k: int)
    requires 0 <= j < k < |AddUploads(s, productId, files, first, rest).images| && |s.images| <= k
    ensures var images := AddUploads(s, productId, files, first, rest).images;
      images[j].id < images[k].id
    decreases |files|
  {
    assert |files| > 0;
    match UploadPath(files[0])
    case None =>
      AddUploadsFreshIds(s, productId, files[1..], rest, rest, j, k);
    case Some(p) =>
      var s1 := AddImage(s, productId, p, Some(first)).0;
      var s' := AddUploads(s1, productId, files[1..], rest, rest);
      assert AddUploads(s, productId, files, first, rest) == s';
      if k == |s.images| {
        assert s'.images[k] == s'.images[..|s1.images|][k] == s1.images[k];
        assert s'.images[j] == s'.images[..|s1.images|][j] == s1.images[j] == s.images[j];
      } else {
        AddUploadsFreshIds(s1, productId, files[1..], rest, rest, j, k);
      }
  }

  /** The body of a product-creation request. */
  datatype CreateBody = CreateBody(name: Val, description: Val, price: Val, sellerId: Val,
                                   kind: Val, condition: Val, categoryId: Val, status: Val)

  /** Every field the creation form requires is truthy. */
  predicate Complete(b: CreateBody) {
    Truthy(b.name) && Truthy(b.description) && Truthy(b.price) && Truthy(b.sellerId) &&
    Truthy(b.kind) && Truthy(b.categoryId)
  }

  /** The integer a truthy request value is bound as. */
  function Column(v: Val): (n: int)
    requires Truthy(v)
    ensures Key(v) == Some(n)
  {
    Key(v).value
  }

  /** The status a new product gets: approved only on the exact string "approved". */
  function RequestedStatus(status: Val): (r: Status)
    ensures r == Approved <==> status == Str("approved")
    ensures r != Rejected
  {
    if status == Str("approved") then Approved else Pending
  }

  /** POST /api/products. Missing fields, then missing files, are refused before any write;
      the rest of the work is `Publish`. */
  function Create(s: Store, b: CreateBody, files: Option<seq<Upload>>,
                  parseFloat: string -> Option<int>): (h: Handled<ProductView>)
    ensures !Complete(b) ==> h == Refuse(s, 400, "All fields are required!")
    ensures Complete(b) && (files.None? || files.value == []) ==>
              h == Refuse(s, 400, "At least one image is required!")
    ensures h.destroyed == []
    ensures h.reply.Fail? && h.reply.status == 500 ==>
              h.store == s && NumericPrice(b.price, parseFloat).None?
    ensures h.reply.Ok? ==>
              h.reply.status == 201 && Complete(b) && files.Some? &&
              h.reply.body.product.status == RequestedStatus(b.status) &&
              |h.store.products| == |s.products| + 1 &&
              h.store.products[..|s.products|] == s.products &&
              |h.store.images| == |s.images| + Count(files.value, HasPath) &&
              h.store.images[..|s.images|] == s.images
    ensures h.reply.Fail? && h.reply.status == 500 <==>
              Complete(b) && files.Some? && files.value != [] &&
              NumericPrice(b.price, parseFloat).None?
    ensures h.reply.Ok? ==> forall k :: |s.images| <= k < |h.store.images| ==>
              h.store.images[k].productId == h.reply.body.product.id &&
              h.store.images[k].path == UploadPath(Filter(files.value, HasPath)[k - |s.images|]) &&
              (h.store.images[k].isPrimary == 1 <==> k == |s.images| && HasPath(files.value[0]))
    ensures h.reply.Ok? ==>
              var row := h.store.products[|s.products|];
              h.reply.body.product == row &&
              row.name == ToStr(b.name) && row.description == ToStr(b.description) &&
              Some(row.price) == NumericPrice(b.price, parseFloat) &&
              Key(b.sellerId) == Some(row.sellerId) && row.kind == ToStr(b.kind) &&
              row.condition == (if Truthy(b.condition) then Some(ToStr(b.condition)) else None) &&
              Key(b.categoryId) == Some(row.categoryId)
  {
    if !Complete(b) then Refuse(s, 400, "All fields are required!")
    else if files.None? || files.value == [] then Refuse(s, 400, "At least one image is required!")
    else
      var p := NewProduct(ToStr(b.name), ToStr(b.description), b.price, Column(b.sellerId),
                          ToStr(b.kind),
                          if Truthy(b.condition) then Some(ToStr(b.condition)) else None,
                          Column(b.categoryId), Some(RequestedStatus(b.status)));
      Publish(s, p, files.value, parseFloat)
  }

  /** The writes of a complete creation request: an unparseable price is a server error before
      any write. Otherwise one product row is added with the requested status, followed by one
      image per usable upload, of which only the upload at index 0 is flagged primary. */
  function Publish(s: Store, p: NewProduct, files: seq<Upload>, parseFloat: string -> Option<int>)
    : (h: Handled<ProductView>)
    requires p.price.Str? || p.price.Num?
    requires files != []
    ensures h.destroyed == []
    ensures h.reply.Fail? <==> NumericPrice(p.price, parseFloat).None?
    ensures h.reply.Fail? ==> h == Refuse(s, 500, ServerError)
    ensures h.reply.Ok? ==>
              h.reply.status == 201 &&
              h.reply.body.product.status == (if p.status.Some? then p.status.value else Pending) &&
              |h.store.products| == |s.products| + 1 &&
              h.store.products[..|s.products|] == s.products &&
              |h.store.images| == |s.images| + Count(files, HasPath) &&
              h.store.images[..|s.images|] == s.images
    ensures h.reply.Ok? ==> forall k :: |s.images| <= k < |h.store.images| ==>
              h.store.images[k].productId == h.reply.body.product.id &&
              h.store.images[k].path == UploadPath(Filter(files, HasPath)[k - |s.images|]) &&
              (h.store.images[k].isPrimary == 1 <==> k == |s.images| && HasPath(files[0]))
    ensures h.reply.Ok? ==>
              var row := h.store.products[|s.products|];
              h.store == s.(products := h.store.products, images := h.store.images) &&
              h.reply.body.product == row &&
              row.name == p.name && row.description == p.description &&
              Some(row.price) == NumericPrice(p.price, parseFloat) &&
              row.sellerId == p.sellerId && row.kind == p.kind && row.condition == p.condition &&
              row.categoryId == p.categoryId &&
              forall i :: 0 <= i < |s.products| ==> s.products[i].id < row.id
  {
    match CreateProduct(s, p, parseFloat)
    case Failure(_) => Refuse(s, 500, ServerError)
    case Success((s1, id)) =>
      var s2 := AddUploads(s1, id, files, 1, 0);
      assert s1.images == s.images;
      forall k | |s.images| <= k < |s2.images|
        ensures s2.images[k].productId == id
        ensures s2.images[k].path == UploadPath(Filter(files, HasPath)[k - |s.images|])
        ensures s2.images[k].isPrimary == 1 <==> k == |s.images| && HasPath(files[0])
      {
        AddUploadsRow(s1, id, files, 1, 0, k);
      }
      assert s2.products == s1.products;
      var row := s1.products[|s.products|];
      assert ProductById(s2, Some(id)) == Some(row);
      Handled(s2, Ok(201, ViewProduct(s2, row)), [])
  }

  // ------------------------------------------------------------------------------------------
  // The image set of a product

  /** A product may carry at most this many images. */
  const MaxImages := 5

  /** The images of product `productId` after inserting rows of that product: the old ones
      followed by the new ones. */
  lemma ImagesOfAppended(s: Store, s': Store, productId: int)
    requires s' == s.(images := s'.images)
    requires |s'.images| >= |s.images| && s'.images[..|s.images|] == s.images
    requires forall k :: |s.images| <= k < |s'.images| ==> s'.images[k].productId == productId
    ensures |ImagesOf(s', Some(productId))| == |ImagesOf(s, Some(productId))| + |s'.images| - |s.images|
  {
    var mine := (img: ProductImage) => Is(img.productId, Some(productId));
    var added := s'.images[|s.images|..];
    assert s'.images == s.images + added;
    FilterConcat(s.images, added, mine);
    FilterAll(added, mine);
  }

  /** POST /api/products/:id/images. No files is refused; so is a batch that would take the
      product past five images, counting every file sent, usable or not. For a product that
      does not exist the first insert breaks the foreign key to `products` and the request is a
      server error with nothing written. Otherwise each usable upload is inserted, and all of
      them are flagged primary when the product had no image before. */
  function AddProductImages(s: Store, id: string, files: Option<seq<Upload>>)
    : (h: Handled<seq<ImageView>>)
    ensures files.None? || files.value == [] ==> h == Refuse(s, 400, "No images uploaded!")
    ensures files.Some? && files.value != [] &&
            |ImagesOf(s, Some(KeyOf(id)))| + |files.value| > MaxImages ==>
              h == Refuse(s, 400, "Maximum 5 images allowed. Product already has " +
                                  IntToString(|ImagesOf(s, Some(KeyOf(id)))|) + " images.")
    ensures files.Some? && files.value != [] &&
            |ImagesOf(s, Some(KeyOf(id)))| + |files.value| <= MaxImages &&
            ProductById(s, Some(KeyOf(id))).None? && Count(files.value, HasPath) > 0 ==>
              h == Refuse(s, 500, ServerError)
    ensures h.destroyed == []
    ensures h.reply.Ok? ==> ProductById(s, Some(KeyOf(id))).Some? || h.store == s
    ensures h.reply.Ok? ==> |ImagesOf(h.store, Some(KeyOf(id)))| <= MaxImages
    ensures h.reply.Ok? ==>
              h.reply.status == 201 && files.Some? &&
              h.store == s.(images := h.store.images) &&
              |h.store.images| == |s.images| + Count(files.value, HasPath) &&
              h.store.images[..|s.images|] == s.images &&
              forall k :: |s.images| <= k < |h.store.images| ==>
                h.store.images[k].productId == KeyOf(id) &&
                h.store.images[k].isPrimary == (if |ImagesOf(s, Some(KeyOf(id)))| == 0 then 1 else 0)
    ensures h.reply.Ok? ==> h.reply.body == Views(GetProductImages(h.store, Some(KeyOf(id))))
  {
    if files.None? || files.value == [] then Refuse(s, 400, "No images uploaded!")
    else
      var pid := KeyOf(id);
      var existing := GetProductImages(s, Some(pid));
      assert |existing| == |ImagesOf(s, Some(pid))| by {
        assert |multiset(existing)| == |multiset(ImagesOf(s, Some(pid)))|;
      }
      if |existing| + |files.value| > MaxImages then
        Refuse(s, 400, "Maximum 5 images allowed. Product already has " +
                       IntToString(|existing|) + " images.")
      else if ProductById(s, Some(pid)).None? && Count(files.value, HasPath) > 0 then
        Refuse(s, 500, ServerError)
      else Attach(s, pid, files.value)
  }

  /** The inserts of an accepted image batch: one row per usable upload after the existing
      rows, every one flagged primary exactly when the product had no image, and the reply
      listing the product's images afterwards. A batch without a usable upload writes
      nothing. */
  function Attach(s: Store, pid: int, files: seq<Upload>): (h: Handled<seq<ImageView>>)
    requires |ImagesOf(s, Some(pid))| + |files| <= MaxImages
    ensures h.destroyed == [] && h.reply.Ok? && h.reply.status == 201
    ensures |ImagesOf(h.store, Some(pid))| <= MaxImages
    ensures Count(files, HasPath) == 0 ==> h.store == s
    ensures h.store == s.(images := h.store.images) &&
            |h.store.images| == |s.images| + Count(files, HasPath) &&
            h.store.images[..|s.images|] == s.images &&
            forall k :: |s.images| <= k < |h.store.images| ==>
              h.store.images[k].productId == pid &&
              h.store.images[k].isPrimary == (if |ImagesOf(s, Some(pid))| == 0 then 1 else 0)
    ensures h.reply.body == Views(GetProductImages(h.store, Some(pid)))
  {
    var flag := if |ImagesOf(s, Some(pid))| == 0 then 1 else 0;
    var s' := AddUploads(s, pid, files, flag, flag);
    forall k | |s.images| <= k < |s'.images|
      ensures s'.images[k].productId == pid && s'.images[k].isPrimary == flag
    {
      AddUploadsRow(s, pid, files, flag, flag, k);
    }
    ImagesOfAppended(s, s', pid);
    assert Count(files, HasPath) == 0 ==> s'.images == s'.images[..|s.images|];
    Handled(s', Ok(201, Views(GetProductImages(s', Some(pid)))), [])
  }

  /** PUT /api/products/:id/images/:imageId/primary: the set-primary transaction, a server error
      with nothing changed when it rolls back. */
  function SetPrimary(s: Store, id: string, imageId: string, fault: Option<PrimaryStep>)
    : (h: Handled<seq<ImageView>>)
    ensures h.destroyed == []
    ensures fault.Some? ==> h == Refuse(s, 500, ServerError)
    ensures fault.None? ==>
              h.store == SetPrimaryImage(s, Some(KeyOf(imageId)), Some(KeyOf(id)), None).store &&
              h.reply == Ok(200, Views(GetProductImages(h.store, Some(KeyOf(id)))))
  {
    match SetPrimaryImage(s, Some(KeyOf(imageId)), Some(KeyOf(id)), fault)
    case RolledBack(_, _) => Refuse(s, 500, ServerError)
    case Committed(s') => Handled(s', Ok(200, Views(GetProductImages(s', Some(KeyOf(id))))), [])
  }

  /** An image row whose path the image host serves. */
  predicate HostedImage(img: ProductImage) {
    img.path.Some? && Hosted(img.path.value)
  }

  /** The public id destroyed for a hosted image row. */
  function DestroyId(img: ProductImage): string {
    if img.path.Some? then PublicId(img.path.value) else ""
  }

  /** The public ids to destroy for a list of image rows: one per row whose path is hosted, in
      the rows' order, and nothing for the others. */
  function DestroyIds(images: seq<ProductImage>): (r: seq<string>)
    ensures |r| == Count(images, HostedImage)
    ensures forall k :: 0 <= k < |r| ==>
              HostedImage(Filter(images, HostedImage)[k]) &&
              r[k] == PublicId(Filter(images, HostedImage)[k].path.value)
    ensures (forall i :: 0 <= i < |images| ==> !HostedImage(images[i])) ==> r == []
  {
    var hosted := Filter(images, HostedImage);
    assert (forall i :: 0 <= i < |images| ==> !HostedImage(images[i])) ==> hosted == [] by {
      if forall i :: 0 <= i < |images| ==> !HostedImage(images[i]) {
        FilterNone(images, HostedImage);
      }
    }
    Map(hosted, DestroyId)
  }

  /** The image `parseInt(imageId)` names, found among the product's images in listing order. */
  function Target(images: seq<ProductImage>, imageId: string): (r: Option<nat>)
    ensures r.Some? ==> r.value < |images| && ParseIntString(imageId) == Some(images[r.value].id)
    ensures r.None? ==> forall i :: 0 <= i < |images| ==> ParseIntString(imageId) != Some(images[i].id)
  {
    Find(images, (img: ProductImage) => ParseIntString(imageId) == Some(img.id))
  }

  /** The image promoted when the primary `targetId` goes: the first other one in listing
      order. */
  function Successor(images: seq<ProductImage>, targetId: int): (r: Option<nat>)
    ensures r.Some? ==> r.value < |images| && images[r.value].id != targetId
    ensures r.Some? ==> forall j :: 0 <= j < r.value ==> images[j].id == targetId
    ensures r.None? ==> forall j :: 0 <= j < |images| ==> images[j].id == targetId
  {
    Find(images, (img: ProductImage) => img.id != targetId)
  }

  /** DELETE /api/products/:id/images/:imageId. An image that is not one of the product's is
      404; the product's last image is never deleted. When the deleted image was primary the
      first other image in listing order is made primary, and when that transaction fails the
      reply is a server error although the deletion stands. A hosted image is destroyed on
      the image host once everything else succeeded. */
  function DeleteProductImage(s: Store, id: string, imageId: string, fault: Option<PrimaryStep>)
    : (h: Handled<seq<ImageView>>)
    ensures Target(GetProductImages(s, Some(KeyOf(id))), imageId).None? ==>
              h == Refuse(s, 404, "Image not found")
    ensures Target(GetProductImages(s, Some(KeyOf(id))), imageId).Some? &&
            |ImagesOf(s, Some(KeyOf(id)))| <= 1 ==>
              h == Refuse(s, 400, "Cannot delete the only image. Products must have at least one image.")
    ensures Target(GetProductImages(s, Some(KeyOf(id))), imageId).Some? &&
            |ImagesOf(s, Some(KeyOf(id)))| > 1 ==>
              var images := GetProductImages(s, Some(KeyOf(id)));
              var t := images[Target(images, imageId).value];
              var deleted := DeleteImage(s, Some(KeyOf(imageId)), Some(KeyOf(id)));
              var next := Successor(images, t.id);
              ((t.isPrimary != 1 || next.None?) ==> h.store == deleted && h.reply.Ok?) &&
              (t.isPrimary == 1 && next.Some? && fault.None? ==>
                 h.reply.Ok? &&
                 h.store == SetPrimaryImage(deleted, Some(images[next.value].id),
                                            Some(KeyOf(id)), None).store) &&
              (t.isPrimary == 1 && next.Some? && fault.Some? ==>
                 h.store == deleted && h.reply == Fail(500, ServerError))
    ensures h.reply.Ok? ==>
              var images := GetProductImages(s, Some(KeyOf(id)));
              var path := images[Target(images, imageId).value].path;
              h.destroyed == (if path.Some? && Hosted(path.value) then [PublicId(path.value)] else [])
    ensures h.reply.Ok? ==>
              h.reply.status == 200 &&
              h.reply.body == Views(GetProductImages(h.store, Some(KeyOf(id))))
    ensures h.reply.Fail? ==> h.destroyed == []
  {
    var pid := Some(KeyOf(id));
    var images := GetProductImages(s, pid);
    assert |images| == |ImagesOf(s, pid)| by {
      assert |multiset(images)| == |multiset(ImagesOf(s, pid))|;
    }
    match Target(images, imageId)
    case None => Refuse(s, 404, "Image not found")
    case Some(k) =>
      if |images| <= 1 then
        Refuse(s, 400, "Cannot delete the only image. Products must have at least one image.")
      else
        var t := images[k];
        var deleted := DeleteImage(s, Some(KeyOf(imageId)), pid);
        var destroyed := if t.path.Some? && Hosted(t.path.value) then [PublicId(t.path.value)] else [];
        match (if t.isPrimary == 1 then Successor(images, t.id) else None)
        case None => Handled(deleted, Ok(200, Views(GetProductImages(deleted, pid))), destroyed)
        case Some(j) =>
          match SetPrimaryImage(deleted, Some(images[j].id), pid, fault)
          case RolledBack(_, _) => Handled(deleted, Fail(500, ServerError), [])
          case Committed(s') => Handled(s', Ok(200, Views(GetProductImages(s', pid))), destroyed)
  }

  /** Ids of the given images are distinct. */
  predicate DistinctIds(images: seq<ProductImage>) {
    forall i, j :: 0 <= i < j < |images| ==> images[i].id != images[j].id
  }

  /** The id in the request spells the image id the same way for both readers of it. */
  predicate DecimalId(imageId: string) {
    ParseIntString(imageId) == Some(KeyOf(imageId))
  }

  /** A row of the product survives the deletion of another image. */
  lemma SurvivesDeletion(s: Store, id: string, imageId: string, row: ProductImage)
    requires row in GetProductImages(s, Some(KeyOf(id))) && row.id != KeyOf(imageId)
    ensures row in DeleteImage(s, Some(KeyOf(imageId)), Some(KeyOf(id))).images
    ensures row.productId == KeyOf(id)
  {
    assert row in multiset(GetProductImages(s, Some(KeyOf(id))));
    assert row in ImagesOf(s, Some(KeyOf(id)));
  }

  /** When `parseInt` and MySQL read the image id differently ("0x10" is image 16 to the
      first and 0 to the second), the handler finds a non-primary image, replies 200 and
      destroys its hosted file, but the DELETE leaves its row in place. */
  lemma MisreadIdKeepsImage(s: Store, id: string, imageId: string, fault: Option<PrimaryStep>)
    requires !DecimalId(imageId)
    requires Target(GetProductImages(s, Some(KeyOf(id))), imageId).Some?
    requires |ImagesOf(s, Some(KeyOf(id)))| > 1
    requires var images := GetProductImages(s, Some(KeyOf(id)));
             images[Target(images, imageId).value].isPrimary != 1
    ensures var images := GetProductImages(s, Some(KeyOf(id)));
      var t := images[Target(images, imageId).value];
      var h := DeleteProductImage(s, id, imageId, fault);
      h.reply.Ok? && t in h.store.images &&
      h.destroyed == (if t.path.Some? && Hosted(t.path.value) then [PublicId(t.path.value)] else [])
  {
    var images := GetProductImages(s, Some(KeyOf(id)));
    var t := images[Target(images, imageId).value];
    assert t.id != KeyOf(imageId);
    SurvivesDeletion(s, id, imageId, t);
  }

  /** Deleting one of two or more images of a product leaves it at least one, whether or not
      another image is then made primary. */
  lemma DeletionLeavesAnImage(s: Store, id: string, imageId: string, promoted: int)
    requires DistinctIds(GetProductImages(s, Some(KeyOf(id)))) && DecimalId(imageId)
    requires Target(GetProductImages(s, Some(KeyOf(id))), imageId).Some?
    requires |ImagesOf(s, Some(KeyOf(id)))| > 1
    ensures var deleted := DeleteImage(s, Some(KeyOf(imageId)), Some(KeyOf(id)));
      |ImagesOf(deleted, Some(KeyOf(id)))| >= 1 &&
      |ImagesOf(SetPrimaryImage(deleted, Some(promoted), Some(KeyOf(id)), None).store, Some(KeyOf(id)))| >= 1
  {
    var pid := Some(KeyOf(id));
    var images := GetProductImages(s, pid);
    GetProductImagesScoped(s, pid);
    var k := Target(images, imageId).value;
    var other := if k == 0 then images[1] else images[0];
    assert other.id != images[k].id;
    SurvivesDeletion(s, id, imageId, other);
    var deleted := DeleteImage(s, Some(KeyOf(imageId)), pid);
    var n :| 0 <= n < |deleted.images| && deleted.images[n] == other;
    assert deleted.images[n] in ImagesOf(deleted, pid);
    var s2 := SetPrimaryImage(deleted, Some(promoted), pid, None).store;
    assert s2.images[n].productId == other.productId;
    assert s2.images[n] in ImagesOf(s2, pid);
  }

  /** A successful image deletion never leaves the product without images. */
  lemma DeleteKeepsAnImage(s: Store, id: string, imageId: string, fault: Option<PrimaryStep>)
    requires DistinctIds(GetProductImages(s, Some(KeyOf(id)))) && DecimalId(imageId)
    requires DeleteProductImage(s, id, imageId, fault).reply.Ok?
    ensures |ImagesOf(DeleteProductImage(s, id, imageId, fault).store, Some(KeyOf(id)))| >= 1
  {
    var images := GetProductImages(s, Some(KeyOf(id)));
    var t := images[Target(images, imageId).value];
    var next := Successor(images, t.id);
    DeletionLeavesAnImage(s, id, imageId, if next.Some? then images[next.value].id else 0);
  }

  /** Deleting the primary image of a product makes another of its images primary. */
  lemma DeletePrimaryPromotes(s: Store, id: string, imageId: string)
    requires DistinctIds(GetProductImages(s, Some(KeyOf(id)))) && DecimalId(imageId)
    requires DeleteProductImage(s, id, imageId, None).reply.Ok?
    requires var images := GetProductImages(s, Some(KeyOf(id)));
             images[Target(images, imageId).value].isPrimary == 1
    ensures var s' := DeleteProductImage(s, id, imageId, None).store;
      exists n :: 0 <= n < |s'.images| && s'.images[n].productId == KeyOf(id) &&
                  s'.images[n].isPrimary == 1
  {
    var pid := Some(KeyOf(id));
    var images := GetProductImages(s, pid);
    GetProductImagesScoped(s, pid);
    var k := Target(images, imageId).value;
    var t := images[k];
    assert |ImagesOf(s, pid)| > 1;
    var other := if k == 0 then images[1] else images[0];
    assert other.id != t.id;
    assert Successor(images, t.id).Some?;
    var j := Successor(images, t.id).value;
    var next := images[j];
    SurvivesDeletion(s, id, imageId, next);
    var deleted := DeleteImage(s, Some(KeyOf(imageId)), pid);
    var n :| 0 <= n < |deleted.images| && deleted.images[n] == next;
    PromotedIsPrimary(deleted, n, KeyOf(id));
    var s' := DeleteProductImage(s, id, imageId, None).store;
    assert s' == SetPrimaryImage(deleted, Some(next.id), pid, None).store;
    assert s'.images[n].productId == KeyOf(id) && s'.images[n].isPrimary == 1;
  }

  /** Making one of a product's images primary flags exactly that row. */
  lemma PromotedIsPrimary(d: Store, n: int, productId: int)
    requires 0 <= n < |d.images| && d.images[n].productId == productId
    ensures var s' := SetPrimaryImage(d, Some(d.images[n].id), Some(productId), None).store;
      s'.images[n].productId == productId && s'.images[n].isPrimary == 1
  {
  }

  // ------------------------------------------------------------------------------------------
  // Moderation and deletion

  /** PUT /api/products/:id/approve and /reject: the status update, then the product view; a
      missing product makes the view fail with a server error. */
  function Moderate(s: Store, id: string, status: Status): (h: Handled<ProductView>)
    ensures h.store == UpdateProductStatus(s, Some(KeyOf(id)), status) && h.destroyed == []
    ensures h.reply.Fail? <==> ProductById(s, Some(KeyOf(id))).None?
    ensures h.reply.Fail? ==> h.reply == Fail(500, ServerError) && h.store == s
    ensures h.reply.Ok? ==>
              h.reply.status == 200 && h.reply.body.product.status == status &&
              Is(h.reply.body.product.id, Some(KeyOf(id))) &&
              h.reply.body.product.(status := ProductById(s, Some(KeyOf(id))).value.status)
                == ProductById(s, Some(KeyOf(id))).value
  {
    var key := Some(KeyOf(id));
    var s' := UpdateProductStatus(s, key, status);
    ProductByIdAfterUpdate(s, key, status);
    match ProductById(s', key)
    case None =>
      assert s'.products == s.products;
      Handled(s', Fail(500, ServerError), [])
    case Some(p) => Handled(s', Ok(200, ViewProduct(s', p)), [])
  }

  function ApproveProduct(s: Store, id: string): (h: Handled<ProductView>)
    ensures h.reply.Ok? ==> h.reply.body.product.status == Approved
    ensures h.store == UpdateProductStatus(s, Some(KeyOf(id)), Approved)
  {
    Moderate(s, id, Approved)
  }

  function RejectProduct(s: Store, id: string): (h: Handled<ProductView>)
    ensures h.reply.Ok? ==> h.reply.body.product.status == Rejected
    ensures h.store == UpdateProductStatus(s, Some(KeyOf(id)), Rejected)
  {
    Moderate(s, id, Rejected)
  }

  /** A rejected product drops out of the approved listing, and an approved one appears in it. */
  lemma ModerationControlsListing(s: Store, id: string, i: nat)
    requires i < |s.products| && s.products[i].id == KeyOf(id)
    ensures var s' := ApproveProduct(s, id).store;
      s'.products[i] in ApprovedProducts(s')
    ensures var s' := RejectProduct(s, id).store;
      s'.products[i] !in ApprovedProducts(s')
  {
  }

  /** DELETE /api/products/:id: the product and its images go, and every hosted image the
      product had is destroyed, in listing order. */
  function DeleteProduct(s: Store, id: string): (h: Handled<string>)
    ensures h.store == DeleteProductById(s, Some(KeyOf(id)))
    ensures h.reply == Ok(200, "Product deleted")
    ensures h.destroyed == DestroyIds(GetProductImages(s, Some(KeyOf(id))))
    ensures |h.destroyed| == Count(GetProductImages(s, Some(KeyOf(id))), HostedImage)
    ensures forall k :: 0 <= k < |h.destroyed| ==>
              h.destroyed[k] == PublicId(Filter(GetProductImages(s, Some(KeyOf(id))), HostedImage)[k].path.value)
  {
    var key := Some(KeyOf(id));
    Handled(DeleteProductById(s, key), Ok(200, "Product deleted"), DestroyIds(GetProductImages(s, key)))
  }
}
