/** The wishlist provider: an ordered list with set semantics, for signed-in users only. It is
    filled from the remote `wishlist_items` table on sign-in and emptied on sign-out; there is
    no local-storage copy. */
module WishlistContext {
  import opened Common
  import opened Seqs

  type UserId = string

  /** `{id, title, price, image_url}`; `price` is the list price (no sale price). */
  datatype WishlistItem = WishlistItem(id: ProductId, title: string, price: real, imageUrl: string)

  /** The answer to the wishlist query: the joined products, or an error. */
  datatype Fetch = FetchFailed | Fetched(products: seq<Product>)

  /** `items.some(item => item.id === id)` */
  function IsInWishlist(items: seq<WishlistItem>, id: ProductId): (r: bool)
    ensures r <==> exists k :: 0 <= k < |items| && items[k].id == id
  {
    if items == [] then false else items[0].id == id || IsInWishlist(items[1..], id)
  }

  predicate DistinctIds(items: seq<WishlistItem>)
  {
    forall i, j :: 0 <= i < j < |items| ==> items[i].id != items[j].id
  }

  /** `prev.filter(item => item.id !== id)` */
  function RemoveEntry(items: seq<WishlistItem>, id: ProductId): seq<WishlistItem>
  {
    Filter(items, (item: WishlistItem) => item.id != id)
  }

  /** The entry a fetched product becomes. */
  function EntryOf(p: Product): WishlistItem
  {
    WishlistItem(p.id, p.title, p.price, p.imageUrl)
  }

  function Entries(products: seq<Product>): seq<WishlistItem>
  {
    seq(|products|, k requires 0 <= k < |products| => EntryOf(products[k]))
  }

  /** The wishlist a fetched product list gives: the list prices, never the sale prices, in
      the order the rows came back. */
  lemma EntriesUseListPrice(products: seq<Product>)
    ensures |Entries(products)| == |products|
    ensures forall k :: 0 <= k < |products| ==>
      Entries(products)[k].id == products[k].id && Entries(products)[k].price == products[k].price
  {
  }

  /** Appending a product that is not yet listed keeps the ids distinct, lists it once, and
      makes the membership test true for it. */
  lemma AppendNewKeepsDistinct(items: seq<WishlistItem>, p: WishlistItem)
    requires DistinctIds(items) && !IsInWishlist(items, p.id)
    ensures DistinctIds(items + [p])
    ensures IsInWishlist(items + [p], p.id)
    ensures forall k :: 0 <= k < |items| + 1 && (items + [p])[k].id == p.id ==> k == |items|
  {
    assert (items + [p])[|items|] == p;
  }

  /** Removing drops every entry with that id and keeps the other entries in order. */
  lemma RemoveEntrySpec(items: seq<WishlistItem>, id: ProductId)
    ensures !IsInWishlist(RemoveEntry(items, id), id)
    ensures IsSubseq(RemoveEntry(items, id), items)
    ensures forall x :: x in RemoveEntry(items, id) <==> x in items && x.id != id
  {
    var f := (item: WishlistItem) => item.id != id;
    var r := RemoveEntry(items, id);
    FilterIsSubseq(items, f);
    forall x ensures x in r <==> x in items && x.id != id {
      FilterMembers(items, f, x);
    }
    forall k | 0 <= k < |r| ensures r[k].id != id {
      FilterMembers(items, f, r[k]);
    }
  }

  class WishlistProvider {
    var items: seq<WishlistItem>
    var user: Option<UserId>
    /** The remote `wishlist_items` table: for each user, the product ids saved. */
    var remote: map<UserId, set<ProductId>>

    function Saved(u: UserId): set<ProductId>
      reads this
    {
      if u in remote then remote[u] else {}
    }

    constructor (table: map<UserId, set<ProductId>>)
      ensures items == [] && user == None && remote == table
    {
      items := [];
      user := None;
      remote := table;
    }

    /** The user effect on sign-in: `fetchWishlist` replaces the items with the fetched
        products unless the query failed. */
    method SignIn(uid: UserId, fetched: Fetch)
      modifies this
      ensures user == Some(uid) && remote == old(remote)
      ensures items == match fetched
        case Fetched(products) => Entries(products)
        case FetchFailed => old(items)
    {
      user := Some(uid);
      match fetched {
        case Fetched(products) => items := Entries(products);
        case FetchFailed =>
      }
    }

    /** The user effect on sign-out: the items are cleared. */
    method SignOut()
      modifies this
      ensures user == None && items == [] && remote == old(remote)
    {
      user := None;
      items := [];
    }

    /** `addToWishlist(p)`: nothing without a user or when `p` is already listed; otherwise an
        insert (which fails when the remote call fails or the row already exists) and, on
        success, `p` appended at the end. */
    method AddToWishlist(p: WishlistItem, ok: bool)
      modifies this
      ensures user == old(user)
      ensures user.None? || IsInWishlist(old(items), p.id) ==> items == old(items) && remote == old(remote)
      ensures user.Some? && !IsInWishlist(old(items), p.id) ==>
        if ok && p.id !in old(Saved(user.value)) then
          items == old(items) + [p] && remote == old(remote)[user.value := old(Saved(user.value)) + {p.id}]
        else items == old(items) && remote == old(remote)
      ensures DistinctIds(old(items)) ==> DistinctIds(items)
      ensures user.Some? && items != old(items) ==> |items| == |old(items)| + 1
    {
      if user.None? {
        return;
      }
      if IsInWishlist(items, p.id) {
        return;
      }
      var u := user.value;
      if ok && p.id !in Saved(u) {
        if DistinctIds(items) {
          AppendNewKeepsDistinct(items, p);
        }
        remote := remote[u := Saved(u) + {p.id}];
        items := items + [p];
      }
    }

    /** `removeFromWishlist(id)`: nothing without a user or when the delete fails; otherwise
        the entries with that id are dropped. */
    method RemoveFromWishlist(id: ProductId, ok: bool)
      modifies this
      ensures user == old(user)
      ensures user.Some? && ok ==>
        items == RemoveEntry(old(items), id) && !IsInWishlist(items, id) &&
        remote == old(remote)[user.value := old(Saved(user.value)) - {id}]
      ensures user.None? || !ok ==> items == old(items) && remote == old(remote)
    {
      if user.None? {
        return;
      }
      var u := user.value;
      if ok {
        RemoveEntrySpec(items, id);
        remote := remote[u := Saved(u) - {id}];
        items := RemoveEntry(items, id);
      }
    }
  }

  /** Two adds of the same product keep exactly one entry for it. */
  method AddTwiceKeepsOne(w: WishlistProvider, p: WishlistItem, ok1: bool, ok2: bool)
    requires DistinctIds(w.items)
    modifies w
    ensures DistinctIds(w.items)
    ensures w.items == old(w.items) || w.items == old(w.items) + [p]
  {
    w.AddToWishlist(p, ok1);
    ghost var once := w.items;
    w.AddToWishlist(p, ok2);
    assert once != old(w.items) ==> once[|once| - 1] == p && IsInWishlist(once, p.id);
  }
}
