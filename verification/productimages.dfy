/** The product image table: listing order, insertion, the set-primary transaction and
    deletions. */
module ProductImages {
  import opened Wrappers
  import opened Seqs
  import opened Sorting
  import opened Db

  /** The rows of `product_images` that belong to the product bound as `productId`. */
  function ImagesOf(s: Store, productId: Option<int>): (r: seq<ProductImage>)
    ensures forall i :: 0 <= i < |r| ==> r[i] in s.images && Is(r[i].productId, productId)
    ensures forall i :: 0 <= i < |s.images| && Is(s.images[i].productId, productId) ==>
              s.images[i] in r
  {
    Filter(s.images, (img: ProductImage) => Is(img.productId, productId))
  }

  /** The listing order: primary images first, then oldest first. */
  predicate ListedBefore(a: ProductImage, b: ProductImage) {
    a.isPrimary > b.isPrimary || (a.isPrimary == b.isPrimary && a.createdAt <= b.createdAt)
  }

  /** The listing order is a total preorder, so sorting by it yields a sorted sequence. */
  lemma ListedBeforeIsPreorder()
    ensures Total(ListedBefore) && Transitive(ListedBefore)
  {
  }

  /** The images of a product in listing order: exactly the product's rows, rearranged so that
      primary images come first and, among equals, older ones first. */
  function GetProductImages(s: Store, productId: Option<int>): (r: seq<ProductImage>)
    ensures multiset(r) == multiset(ImagesOf(s, productId))
    ensures SortedBy(r, ListedBefore)
  {
    ListedBeforeIsPreorder();
    SortIsSorted(ImagesOf(s, productId), ListedBefore);
    Sort(ImagesOf(s, productId), ListedBefore)
  }

  /** Every listed image belongs to the product, and every image of the product is listed. */
  lemma GetProductImagesScoped(s: Store, productId: Option<int>)
    ensures forall i :: 0 <= i < |GetProductImages(s, productId)| ==>
              Is(GetProductImages(s, productId)[i].productId, productId)
    ensures forall i :: 0 <= i < |GetProductImages(s, productId)| ==>
              GetProductImages(s, productId)[i] in ImagesOf(s, productId)
    ensures |GetProductImages(s, productId)| == |ImagesOf(s, productId)|
  {
    var r := GetProductImages(s, productId);
    var all := ImagesOf(s, productId);
    forall i | 0 <= i < |r|
      ensures r[i] in all && Is(r[i].productId, productId)
    {
      assert r[i] in multiset(r);
      assert r[i] in multiset(all);
    }
    assert |multiset(r)| == |multiset(all)|;
  }

  /** Inserting an image. The path is stored as NULL when empty, and the flag defaults to 0 when
      not given. The new row has a fresh id and the current time; nothing else changes. */
  function AddImage(s: Store, productId: int, path: string, isPrimary: Option<int>)
    : (r: (Store, int))
    ensures var (s', id) := r;
      |s'.images| == |s.images| + 1 && s' == s.(images := s.images + [s'.images[|s.images|]])
    ensures var (s', id) := r; var row := s'.images[|s.images|];
      row.id == id && row.productId == productId && row.createdAt == s.clock &&
      (row.path.None? <==> path == "") && (path != "" ==> row.path == Some(path)) &&
      row.isPrimary == (if isPrimary.Some? then isPrimary.value else 0)
    ensures forall i :: 0 <= i < |s.images| ==> s.images[i].id < r.1
  {
    var id := NextId(s.images, (img: ProductImage) => img.id);
    var row := ProductImage(id, productId, if path == "" then None else Some(path),
                            isPrimary.GetOr(0), s.clock);
    (s.(images := s.images + [row]), id)
  }

  /** The statements of the set-primary transaction, each of which may throw. */
  datatype PrimaryStep = BeginTx | ClearFlags | SetFlag | CommitTx

  /** The end of a transaction: committed with the new store, or rolled back at a failing step
      with the store as it was. */
  datatype Outcome<+S> = Committed(store: Db.Store) | RolledBack(store: Db.Store, at: S)

  /** The image rows after `UPDATE … SET is_primary = 0 WHERE product_id = ?`. */
  function ClearPrimary(images: seq<ProductImage>, productId: Option<int>)
    : (r: seq<ProductImage>)
    ensures |r| == |images|
    ensures forall i :: 0 <= i < |images| ==>
              r[i] == (if Is(images[i].productId, productId)
                       then images[i].(isPrimary := 0) else images[i])
  {
    Map(images, (img: ProductImage) =>
      if Is(img.productId, productId) then img.(isPrimary := 0) else img)
  }

  /** The image rows after `UPDATE … SET is_primary = 1 WHERE id = ? AND product_id = ?`. */
  function FlagPrimary(images: seq<ProductImage>, imageId: Option<int>, productId: Option<int>)
    : (r: seq<ProductImage>)
    ensures |r| == |images|
    ensures forall i :: 0 <= i < |images| ==>
              r[i] == (if Is(images[i].id, imageId) && Is(images[i].productId, productId)
                       then images[i].(isPrimary := 1) else images[i])
  {
    Map(images, (img: ProductImage) =>
      if Is(img.id, imageId) && Is(img.productId, productId) then img.(isPrimary := 1) else img)
  }

  /** Making one image the product's only primary image, in a transaction. `fault` names the
      statement that throws, if any; a throw rolls everything back. After a commit, an image of
      the product is flagged exactly when its id is `imageId`, and every other row, of this
      product or any other, is as it was apart from that flag. */
  function SetPrimaryImage(s: Store, imageId: Option<int>, productId: Option<int>,
                           fault: Option<PrimaryStep>): (r: Outcome<PrimaryStep>)
    ensures r.Committed? <==> fault.None?
    ensures r.RolledBack? ==> r.store == s && r.at == fault.value
    ensures r.store == s.(images := r.store.images)
    ensures |r.store.images| == |s.images|
    ensures r.Committed? ==> forall i :: 0 <= i < |s.images| ==>
              var (was, now) := (s.images[i], r.store.images[i]);
              now.(isPrimary := was.isPrimary) == was &&
              (Is(was.productId, productId) ==>
                 now.isPrimary == (if Is(was.id, imageId) then 1 else 0)) &&
              (!Is(was.productId, productId) ==> now == was)
  {
    match fault
    case Some(step) => RolledBack(s, step)
    case None =>
      Committed(s.(images := FlagPrimary(ClearPrimary(s.images, productId), imageId, productId)))
  }

  /** The product has at most one image flagged primary. */
  predicate AtMostOnePrimary(images: seq<ProductImage>, productId: Option<int>) {
    forall i, j ::
      (0 <= i < |images| && 0 <= j < |images| &&
       Is(images[i].productId, productId) && Is(images[j].productId, productId) &&
       images[i].isPrimary == 1 && images[j].isPrimary == 1) ==> i == j
  }

  /** Image ids are unique, as the primary key guarantees. */
  predicate UniqueIds(images: seq<ProductImage>) {
    forall i, j :: (0 <= i < |images| && 0 <= j < |images| && images[i].id == images[j].id) ==> i == j
  }

  /** With unique ids, a committed set-primary leaves the product at most one primary image,
      and exactly the chosen one when it belongs to the product. */
  lemma SetPrimaryLeavesOnePrimary(s: Store, imageId: Option<int>, productId: Option<int>)
    requires UniqueIds(s.images)
    ensures var s' := SetPrimaryImage(s, imageId, productId, None).store;
      AtMostOnePrimary(s'.images, productId) &&
      forall i :: 0 <= i < |s.images| && Is(s.images[i].productId, productId) ==>
        (s'.images[i].isPrimary == 1 <==> Is(s.images[i].id, imageId))
  {
  }

  /** When the chosen image is not one of the product's, the product ends with no primary image
      at all: the clearing step runs regardless. */
  lemma SetPrimaryOfForeignImage(s: Store, imageId: Option<int>, productId: Option<int>)
    requires forall i :: 0 <= i < |s.images| && Is(s.images[i].productId, productId) ==>
               !Is(s.images[i].id, imageId)
    ensures var s' := SetPrimaryImage(s, imageId, productId, None).store;
      forall i :: 0 <= i < |s'.images| && Is(s'.images[i].productId, productId) ==>
        s'.images[i].isPrimary == 0
  {
  }

  /** Running set-primary twice with the same arguments is the same as running it once. */
  lemma SetPrimaryIdempotent(s: Store, imageId: Option<int>, productId: Option<int>)
    ensures var s1 := SetPrimaryImage(s, imageId, productId, None).store;
      SetPrimaryImage(s1, imageId, productId, None).store == s1
  {
    var s1 := SetPrimaryImage(s, imageId, productId, None).store;
    var s2 := SetPrimaryImage(s1, imageId, productId, None).store;
    assert s2.images == s1.images;
  }

  /** `DELETE … WHERE id = ? AND product_id = ?`: a row goes exactly when both match. */
  function DeleteImage(s: Store, imageId: Option<int>, productId: Option<int>): (s': Store)
    ensures s' == s.(images := s'.images)
    ensures forall i :: 0 <= i < |s'.images| ==>
              s'.images[i] in s.images &&
              !(Is(s'.images[i].id, imageId) && Is(s'.images[i].productId, productId))
    ensures forall i ::
              (0 <= i < |s.images| &&
               !(Is(s.images[i].id, imageId) && Is(s.images[i].productId, productId))) ==>
              s.images[i] in s'.images
  {
    s.(images := Filter(s.images, (img: ProductImage) =>
                          !(Is(img.id, imageId) && Is(img.productId, productId))))
  }

  /** `DELETE … WHERE product_id = ?`: the product keeps no image, other products keep all. */
  function DeleteAllProductImages(s: Store, productId: Option<int>): (s': Store)
    ensures s' == s.(images := s'.images)
    ensures ImagesOf(s', productId) == []
    ensures forall i :: 0 <= i < |s.images| && !Is(s.images[i].productId, productId) ==>
              s.images[i] in s'.images
    ensures forall i :: 0 <= i < |s'.images| ==> s'.images[i] in s.images
  {
    var r := s.(images := Filter(s.images, (img: ProductImage) => !Is(img.productId, productId)));
    FilterNone(r.images, (img: ProductImage) => Is(img.productId, productId));
    r
  }
}
