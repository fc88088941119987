/** The products table: moderation-status listings, creation with price parsing, status
    updates and deletion. */
module Products {
  import opened Wrappers
  import opened Seqs
  import opened Sorting
  import opened Js
  import opened Db
  import ProductImages

  /** `WHERE p.status = 'approved'`: the products a shopper may see, in table order. */
  function ApprovedProducts(s: Store): (r: seq<Product>)
    ensures forall i :: 0 <= i < |r| ==> r[i] in s.products && r[i].status == Approved
    ensures forall i :: 0 <= i < |s.products| && s.products[i].status == Approved ==>
              s.products[i] in r
  {
    Filter(s.products, (p: Product) => p.status == Approved)
  }

  /** The listing order of moderation queues: newest first. */
  predicate NewerFirst(a: Product, b: Product) {
    a.createdAt >= b.createdAt
  }

  /** The products waiting for moderation, newest first: exactly the pending rows. */
  function PendingProducts(s: Store): (r: seq<Product>)
    ensures multiset(r) == multiset(Filter(s.products, (p: Product) => p.status == Pending))
    ensures forall i :: 0 <= i < |r| ==> r[i] in s.products && r[i].status == Pending
    ensures SortedBy(r, NewerFirst)
  {
    var pending := Filter(s.products, (p: Product) => p.status == Pending);
    SortIsSorted(pending, NewerFirst);
    var r := Sort(pending, NewerFirst);
    forall i | 0 <= i < |r|
      ensures r[i] in s.products && r[i].status == Pending
    {
      assert r[i] in multiset(pending);
    }
    r
  }

  /** `WHERE p.id = ?`: the first product with that id. */
  function ProductById(s: Store, id: Option<int>): (r: Option<Product>)
    ensures r.Some? ==> r.value in s.products && Is(r.value.id, id)
    ensures r.None? ==> forall i :: 0 <= i < |s.products| ==> !Is(s.products[i].id, id)
  {
    match Find(s.products, (p: Product) => Is(p.id, id))
    case None => None
    case Some(k) => Some(s.products[k])
  }

  /** The columns a new product is created with; `status` is None when the caller gives none. */
  datatype NewProduct = NewProduct(name: string, description: string, price: Val,
                                   sellerId: int, kind: string, condition: Option<string>,
                                   categoryId: int, status: Option<Status>)

  /** The number `createProduct` stores: a string goes through `parseFloat` (an oracle here,
      None meaning NaN), a number is taken as is. */
  function NumericPrice(price: Val, parseFloat: string -> Option<int>): (r: Option<int>)
    requires price.Str? || price.Num?
    ensures price.Num? ==> r == Some(price.n)
    ensures price.Str? ==> r == parseFloat(price.s)
  {
    if price.Str? then parseFloat(price.s) else Some(price.n)
  }

  const InvalidPrice := "Invalid price value"

  /** Inserting a product. A price that does not parse throws before anything is written; a
      missing status becomes `pending`. On success one row with a fresh id is appended and
      nothing else changes. */
  function CreateProduct(s: Store, p: NewProduct, parseFloat: string -> Option<int>)
    : (r: Result<(Store, int), string>)
    requires p.price.Str? || p.price.Num?
    ensures r.Failure? <==> NumericPrice(p.price, parseFloat).None?
    ensures r.Failure? ==> r.error == InvalidPrice
    ensures r.Success? ==>
      var (s', id) := r.value;
      |s'.products| == |s.products| + 1 &&
      s' == s.(products := s.products + [s'.products[|s.products|]]) &&
      (forall i :: 0 <= i < |s.products| ==> s.products[i].id < id)
    ensures r.Success? ==>
      var (s', id) := r.value; var row := s'.products[|s.products|];
      row.id == id && row.name == p.name && row.description == p.description &&
      Some(row.price) == NumericPrice(p.price, parseFloat) &&
      row.sellerId == p.sellerId && row.kind == p.kind && row.condition == p.condition &&
      row.categoryId == p.categoryId && row.image.None? && row.createdAt == s.clock &&
      row.status == (if p.status.Some? then p.status.value else Pending)
  {
    match NumericPrice(p.price, parseFloat)
    case None => Failure(InvalidPrice)
    case Some(price) =>
      var id := NextId(s.products, (q: Product) => q.id);
      var row := Product(id, p.name, p.description, price, p.status.GetOr(Pending), p.sellerId,
                         p.kind, p.condition, p.categoryId, None, s.clock);
      Success((s.(products := s.products + [row]), id))
  }

  /** `UPDATE products SET status = ? WHERE id = ?`: only the status of the matching rows
      changes. */
  function UpdateProductStatus(s: Store, id: Option<int>, status: Status): (s': Store)
    ensures s' == s.(products := s'.products)
    ensures |s'.products| == |s.products|
    ensures forall i :: 0 <= i < |s.products| ==>
              s'.products[i] == (if Is(s.products[i].id, id)
                                 then s.products[i].(status := status) else s.products[i])
  {
    s.(products := Map(s.products, (p: Product) => if Is(p.id, id) then p.(status := status) else p))
  }

  /** Updating a status twice is updating it once. */
  lemma UpdateProductStatusIdempotent(s: Store, id: Option<int>, status: Status)
    ensures UpdateProductStatus(UpdateProductStatus(s, id, status), id, status)
         == UpdateProductStatus(s, id, status)
  {
    var s1 := UpdateProductStatus(s, id, status);
    var s2 := UpdateProductStatus(s1, id, status);
    assert s2.products == s1.products;
  }

  /** After a status update, looking the product up finds the same row with the new status. */
  lemma ProductByIdAfterUpdate(s: Store, id: Option<int>, status: Status)
    ensures var r := ProductById(UpdateProductStatus(s, id, status), id);
      (r.None? <==> ProductById(s, id).None?) &&
      (r.Some? ==> r.value == ProductById(s, id).value.(status := status))
  {
    var s' := UpdateProductStatus(s, id, status);
    var p := (q: Product) => Is(q.id, id);
    match Find(s.products, p)
    case None =>
      assert s'.products == s.products;
    case Some(k) =>
      assert Find(s'.products, p) == Some(k) by {
        FindSamePositions(s.products, s'.products, p);
      }
  }

  /** `DELETE FROM products WHERE id = ?`, with the foreign key's cascade removing the
      product's images. Other products and their images stay. */
  function DeleteProductById(s: Store, id: Option<int>): (s': Store)
    ensures s' == s.(products := s'.products, images := s'.images)
    ensures forall i :: 0 <= i < |s'.products| ==> s'.products[i] in s.products && !Is(s'.products[i].id, id)
    ensures forall i :: 0 <= i < |s.products| && !Is(s.products[i].id, id) ==> s.products[i] in s'.products
    ensures ProductImages.ImagesOf(s', id) == []
    ensures forall i :: 0 <= i < |s.images| && !Is(s.images[i].productId, id) ==> s.images[i] in s'.images
    ensures forall i :: 0 <= i < |s'.images| ==> s'.images[i] in s.images
  {
    var t := ProductImages.DeleteAllProductImages(s, id);
    t.(products := Filter(s.products, (p: Product) => !Is(p.id, id)))
  }
}
