/** The recently-viewed strip: the products of the viewed ids are fetched and put back in the
    order of the ids, products that did not come back are dropped, and four cards are shown. */
module RecentlyViewedStrip {
  import opened Common
  import opened Seqs

  /** How many cards are shown: `products.slice(0, 4)`. */
  const CardCount: nat := 4

  predicate HasProduct(data: seq<Product>, id: ProductId)
  {
    exists k :: 0 <= k < |data| && data[k].id == id
  }

  /** `data.find((p) => p.id === id)`: the first product with that id. */
  function FindById(data: seq<Product>, id: ProductId): (r: Option<Product>)
    ensures r.None? <==> !HasProduct(data, id)
    ensures r.Some? ==>
      exists k :: 0 <= k < |data| && data[k] == r.value && r.value.id == id &&
        (forall j :: 0 <= j < k ==> data[j].id != id)
  {
    if data == [] then None
    else if data[0].id == id then Some(data[0])
    else
      var r := FindById(data[1..], id);
      assert forall k :: 1 <= k < |data| ==> data[k] == data[1..][k - 1];
      if r.Some? then
        var k :| 0 <= k < |data[1..]| && data[1..][k] == r.value && r.value.id == id
          && forall j :: 0 <= j < k ==> data[1..][j].id != id;
        assert data[k + 1] == r.value;
        r
      else
        r
  }

  /** `productIds.map((id) => data.find((p) => p.id === id)).filter(Boolean)` */
  function Reorder(ids: seq<ProductId>, data: seq<Product>): seq<Product>
  {
    if ids == [] then []
    else
      match FindById(data, ids[0])
      case Some(p) => [p] + Reorder(ids[1..], data)
      case None => Reorder(ids[1..], data)
  }

  function IdsOf(products: seq<Product>): (r: seq<ProductId>)
    ensures |r| == |products|
    ensures forall k :: 0 <= k < |r| ==> r[k] == products[k].id
  {
    seq(|products|, k requires 0 <= k < |products| => products[k].id)
  }

  /** The ids of the reordered products are the viewed ids, in their order, with those left out
      that no fetched product carries; every reordered product is a fetched one. */
  lemma {:induction false} ReorderSpec(ids: seq<ProductId>, data: seq<Product>)
    ensures IdsOf(Reorder(ids, data)) == Filter(ids, (id: ProductId) => HasProduct(data, id))
    ensures forall p :: p in Reorder(ids, data) ==> p in data
    decreases |ids|
  {
    if ids != [] {
      ReorderSpec(ids[1..], data);
      var rest := Reorder(ids[1..], data);
      match FindById(data, ids[0])
      case Some(p) => {
        assert Reorder(ids, data) == [p] + rest;
        assert IdsOf([p] + rest) == [p.id] + IdsOf(rest);
      }
      case None => {
      }
    }
  }

  /** There are never more products than viewed ids, each product's id is a viewed id, the ids
      keep their viewing order, and when every viewed id came back nothing is dropped. */
  lemma ReorderKeepsViewingOrder(ids: seq<ProductId>, data: seq<Product>)
    ensures |Reorder(ids, data)| <= |ids|
    ensures IsSubseq(IdsOf(Reorder(ids, data)), ids)
    ensures forall p :: p in Reorder(ids, data) ==> p.id in ids
    ensures (forall id :: id in ids ==> HasProduct(data, id)) ==> IdsOf(Reorder(ids, data)) == ids
  {
    var f := (id: ProductId) => HasProduct(data, id);
    var r := Reorder(ids, data);
    ReorderSpec(ids, data);
    FilterIsSubseq(ids, f);
    SubseqElements(IdsOf(r), ids);
    forall p | p in r ensures p.id in ids {
      var k :| 0 <= k < |r| && r[k] == p;
      assert IdsOf(r)[k] == p.id;
      FilterMembers(ids, f, p.id);
    }
    if forall id :: id in ids ==> HasProduct(data, id) {
      FilterAllPass(ids, f);
    }
  }

  /** Viewed ids without repeats give products without repeated ids. */
  lemma ReorderKeepsDistinct(ids: seq<ProductId>, data: seq<Product>)
    requires Distinct(ids)
    ensures Distinct(IdsOf(Reorder(ids, data)))
  {
    ReorderKeepsViewingOrder(ids, data);
    SubseqKeepsDistinct(IdsOf(Reorder(ids, data)), ids);
  }

  /** The effect on `productIds`: with no ids the list is emptied without a query; otherwise
      the fetched products are put in the order of the ids (`ReorderSpec`), and a failed query
      (`None`) leaves the list as it was (`None` result). */
  function OnProductIds(ids: seq<ProductId>, data: Option<seq<Product>>): (update: Option<seq<Product>>)
    ensures ids == [] ==> update == Some([])
    ensures ids != [] && data.None? ==> update.None?
    ensures ids != [] && data.Some? ==> update == Some(Reorder(ids, data.value))
    ensures update.Some? && ids != [] ==> data.Some? && forall p :: p in update.value ==> p in data.value && p.id in ids
    ensures update.Some? ==> |update.value| <= |ids|
  {
    if ids == [] then Some([])
    else if data.None? then None
    else
      ReorderSpec(ids, data.value);
      ReorderKeepsViewingOrder(ids, data.value);
      Some(Reorder(ids, data.value))
  }

  /** The cards rendered: the first four products, in order. */
  function Cards(products: seq<Product>): (r: seq<Product>)
    ensures |r| == if |products| <= CardCount then |products| else CardCount
    ensures forall k :: 0 <= k < |r| ==> r[k] == products[k]
    ensures |products| <= CardCount ==> r == products
  {
    Take(products, CardCount)
  }
}
