/** The cart provider: an ordered list of cart lines held in memory, mirrored to the `cart`
    key of local storage while nobody is signed in, and backed by the remote `cart_items`
    table (one row per user and product) while a user is signed in. Every remote call is
    reduced to a success flag, and every refetch to the response it returned. */
module CartContext {
  import opened Common
  import opened Seqs

  type UserId = string

  /** A cart line `{id, title, price, image_url, quantity}`; `price` is the unit price captured
      when the line was made. */
  datatype CartItem = CartItem(id: ProductId, title: string, price: real, imageUrl: string, quantity: int)

  /** A `cart_items` row joined with its product, as the cart refetch selects it. */
  datatype CartRow = CartRow(product: Product, quantity: int)

  /** The answer to a refetch of the signed-in user's cart. */
  datatype Fetch = FetchFailed | Fetched(rows: seq<CartRow>)

  predicate HasId(items: seq<CartItem>, id: ProductId)
  {
    exists k :: 0 <= k < |items| && items[k].id == id
  }

  predicate DistinctIds(items: seq<CartItem>)
  {
    forall i, j :: 0 <= i < j < |items| ==> items[i].id != items[j].id
  }

  /** `items.find(item => item.id === id)`, as the index of the first match. */
  function FindLine(items: seq<CartItem>, id: ProductId): (r: Option<nat>)
    ensures r.Some? ==> r.value < |items| && items[r.value].id == id
    ensures r.Some? ==> forall j :: 0 <= j < r.value ==> items[j].id != id
    ensures r.None? <==> !HasId(items, id)
  {
    if items == [] then None
    else if items[0].id == id then Some(0)
    else
      match FindLine(items[1..], id)
      case Some(k) => Some(k + 1)
      case None => None
  }

  /** The line an anonymous add appends for a product not yet in the cart. */
  function NewLine(p: Product): CartItem
  {
    CartItem(p.id, p.title, EffectivePrice(p), p.imageUrl, 1)
  }

  /** `prev.map(item => item.id === id ? { ...item, quantity: item.quantity + 1 } : item)` */
  function Bump(items: seq<CartItem>, id: ProductId): (r: seq<CartItem>)
  {
    seq(|items|, k requires 0 <= k < |items| =>
      if items[k].id == id then items[k].(quantity := items[k].quantity + 1) else items[k])
  }

  /** `prev.map(item => item.id === id ? { ...item, quantity } : item)` */
  function SetQuantity(items: seq<CartItem>, id: ProductId, q: int): (r: seq<CartItem>)
  {
    seq(|items|, k requires 0 <= k < |items| =>
      if items[k].id == id then items[k].(quantity := q) else items[k])
  }

  /** The anonymous add: bump an existing line, otherwise append a new one. */
  function AddLine(items: seq<CartItem>, p: Product): (r: seq<CartItem>)
  {
    if HasId(items, p.id) then Bump(items, p.id) else items + [NewLine(p)]
  }

  /** `prev.filter(item => item.id !== id)` */
  function RemoveLine(items: seq<CartItem>, id: ProductId): (r: seq<CartItem>)
  {
    Filter(items, (item: CartItem) => item.id != id)
  }

  /** The line a fetched row becomes: the product's fields, `sale_price || price` and the
      row's quantity. */
  function LineOf(row: CartRow): CartItem
  {
    CartItem(row.product.id, row.product.title, EffectivePrice(row.product), row.product.imageUrl, row.quantity)
  }

  function MapRows(rows: seq<CartRow>): (r: seq<CartItem>)
  {
    seq(|rows|, k requires 0 <= k < |rows| => LineOf(rows[k]))
  }

  /** The in-memory items after a refetch: the mapped rows, or the previous items when the
      query failed. */
  function Refetched(prev: seq<CartItem>, fetched: Fetch): seq<CartItem>
  {
    match fetched
    case Fetched(rows) => MapRows(rows)
    case FetchFailed => prev
  }

  /** What one line adds to the total: unit price times quantity. */
  function Amount(item: CartItem): real
  {
    item.price * (item.quantity as real)
  }

  /** `items.reduce((sum, item) => sum + item.price * item.quantity, 0)` */
  function Total(items: seq<CartItem>): real
  {
    if items == [] then 0.0 else Total(items[..|items| - 1]) + Amount(items[|items| - 1])
  }

  /** `items.reduce((sum, item) => sum + item.quantity, 0)` */
  function ItemCount(items: seq<CartItem>): int
  {
    if items == [] then 0 else ItemCount(items[..|items| - 1]) + items[|items| - 1].quantity
  }

  // -----------------------------------------------------------------------------------------
  // The sign-in merge of the local cart into the user's remote rows (product id -> quantity).

  /** One pass of the merge loop: add to an existing row, insert a missing one, or, when the
      write failed, leave the rows as they were (the loop ignores write errors). */
  function MergeLine(rows: map<ProductId, int>, line: CartItem, ok: bool): map<ProductId, int>
  {
    if !ok then rows
    else if line.id in rows then rows[line.id := rows[line.id] + line.quantity]
    else rows[line.id := line.quantity]
  }

  /** The rows after the loop has processed every local line in order. */
  function Merge(rows: map<ProductId, int>, local: seq<CartItem>, ok: seq<bool>): map<ProductId, int>
    requires |ok| == |local|
  {
    if local == [] then rows
    else MergeLine(Merge(rows, local[..|local| - 1], ok[..|ok| - 1]), local[|local| - 1], ok[|ok| - 1])
  }

  function QuantityOr0(rows: map<ProductId, int>, id: ProductId): int
  {
    if id in rows then rows[id] else 0
  }

  // -----------------------------------------------------------------------------------------
  // Lemmas about the list operations.

  /** An add of a product not in the cart appends exactly one line, with quantity 1 and the
      unit price `sale_price || price`. */
  lemma AddNewAppends(items: seq<CartItem>, p: Product)
    requires !HasId(items, p.id)
    ensures AddLine(items, p) == items + [CartItem(p.id, p.title, EffectivePrice(p), p.imageUrl, 1)]
  {
  }

  /** In a cart with distinct ids, an add of a product already present increments only its
      line, in place. */
  lemma {:induction false} AddExistingBumpsOnlyItsLine(items: seq<CartItem>, p: Product, k: nat)
    requires DistinctIds(items) && k < |items| && items[k].id == p.id
    ensures AddLine(items, p) == items[k := items[k].(quantity := items[k].quantity + 1)]
  {
    var r := AddLine(items, p);
    assert |r| == |items|;
    forall j | 0 <= j < |items| ensures r[j] == items[k := items[k].(quantity := items[k].quantity + 1)][j] {
      if j != k {
        assert items[j].id != p.id by {
          if j < k { assert items[j].id != items[k].id; } else { assert items[k].id != items[j].id; }
        }
      }
    }
  }

  lemma AddKeepsDistinct(items: seq<CartItem>, p: Product)
    requires DistinctIds(items)
    ensures DistinctIds(AddLine(items, p))
  {
  }

  /** `n` adds of one product, starting from the `n` = 0 cart. */
  function AddTimes(items: seq<CartItem>, p: Product, n: nat): seq<CartItem>
  {
    if n == 0 then items else AddLine(AddTimes(items, p, n - 1), p)
  }

  /** `n` adds of a product not in the cart leave one line for it, with quantity `n`, at
      the end, and the other lines as they were. */
  lemma {:induction false} RepeatedAdds(items: seq<CartItem>, p: Product, n: nat)
    requires !HasId(items, p.id) && n >= 1
    ensures AddTimes(items, p, n) == items + [NewLine(p).(quantity := n)]
  {
    if n > 1 {
      RepeatedAdds(items, p, n - 1);
      var prev := items + [NewLine(p).(quantity := n - 1)];
      assert prev[|items|].id == p.id;
      assert HasId(prev, p.id);
      var r := Bump(prev, p.id);
      forall j | 0 <= j < |r| ensures r[j] == (items + [NewLine(p).(quantity := n)])[j] {
        if j < |items| {
          assert prev[j] == items[j];
        }
      }
    }
  }

  /** Removing drops the lines with that id, keeps the others in order, and is a no-op for
      an absent id. */
  lemma RemoveLineSpec(items: seq<CartItem>, id: ProductId)
    ensures !HasId(RemoveLine(items, id), id)
    ensures IsSubseq(RemoveLine(items, id), items)
    ensures forall x :: x in RemoveLine(items, id) <==> x in items && x.id != id
    ensures !HasId(items, id) ==> RemoveLine(items, id) == items
  {
    var f := (item: CartItem) => item.id != id;
    var r := RemoveLine(items, id);
    FilterIsSubseq(items, f);
    forall x ensures x in r <==> x in items && x.id != id {
      FilterMembers(items, f, x);
    }
    forall k | 0 <= k < |r| ensures r[k].id != id {
      FilterMembers(items, f, r[k]);
    }
    if !HasId(items, id) {
      FilterAllPass(items, f);
    }
  }

  lemma RemoveKeepsDistinct(items: seq<CartItem>, id: ProductId)
    requires DistinctIds(items)
    ensures DistinctIds(RemoveLine(items, id))
  {
    var r := RemoveLine(items, id);
    RemoveLineSpec(items, id);
    SubseqKeepsDistinctIds(r, items);
  }

  /** The id version of `SubseqKeepsDistinct`, through the list of ids. */
  lemma SubseqKeepsDistinctIds(a: seq<CartItem>, b: seq<CartItem>)
    requires IsSubseq(a, b) && DistinctIds(b)
    ensures DistinctIds(a)
  {
    var id := (item: CartItem) => item.id;
    SubseqProject(a, b, id);
    SubseqKeepsDistinct(Project(a, id), Project(b, id));
    assert forall i, j :: 0 <= i < j < |a| ==> Project(a, id)[i] != Project(a, id)[j];
  }

  /** In a cart with distinct ids, setting a quantity changes only that line; for an absent id
      the items are unchanged. No upper bound is applied. */
  lemma SetQuantitySpec(items: seq<CartItem>, id: ProductId, q: int)
    requires DistinctIds(items)
    ensures DistinctIds(SetQuantity(items, id, q))
    ensures !HasId(items, id) ==> SetQuantity(items, id, q) == items
    ensures forall k :: 0 <= k < |items| && items[k].id == id ==>
      SetQuantity(items, id, q) == items[k := items[k].(quantity := q)]
  {
    var r := SetQuantity(items, id, q);
    if !HasId(items, id) {
      assert forall k :: 0 <= k < |items| ==> r[k] == items[k];
    }
    forall k | 0 <= k < |items| && items[k].id == id
      ensures r == items[k := items[k].(quantity := q)]
    {
      forall j | 0 <= j < |items| ensures r[j] == items[k := items[k].(quantity := q)][j] {
        if j != k {
          assert items[j].id != items[k].id by {
            if j < k { } else { }
          }
        }
      }
    }
  }

  // -----------------------------------------------------------------------------------------
  // Lemmas about the derived values.

  lemma {:induction false} TotalsOfConcat(a: seq<CartItem>, b: seq<CartItem>)
    ensures Total(a + b) == Total(a) + Total(b)
    ensures ItemCount(a + b) == ItemCount(a) + ItemCount(b)
    decreases |b|
  {
    if b == [] {
      assert a + b == a;
    } else {
      TotalsOfConcat(a, b[..|b| - 1]);
      assert (a + b)[..|a + b| - 1] == a + b[..|b| - 1];
    }
  }

  /** Replacing one line changes the totals by the difference that line makes. */
  lemma {:induction false} TotalsOfUpdate(items: seq<CartItem>, k: nat, x: CartItem)
    requires k < |items|
    ensures Total(items[k := x]) == Total(items) - Amount(items[k]) + Amount(x)
    ensures ItemCount(items[k := x]) == ItemCount(items) - items[k].quantity + x.quantity
  {
    var n := |items|;
    var r := items[k := x];
    if k == n - 1 {
      assert r[..n - 1] == items[..n - 1];
    } else {
      assert r[..n - 1] == items[..n - 1][k := x];
      TotalsOfUpdate(items[..n - 1], k, x);
    }
  }

  lemma AddOneUnit(line: CartItem)
    ensures Amount(line.(quantity := line.quantity + 1)) == Amount(line) + line.price
  {
  }

  /** In a cart with distinct ids, an add raises the item count by 1 and the total by the
      unit price of the line it touched. */
  lemma AddLineTotals(items: seq<CartItem>, p: Product)
    requires DistinctIds(items)
    ensures ItemCount(AddLine(items, p)) == ItemCount(items) + 1
    ensures Total(AddLine(items, p)) == Total(items) +
      match FindLine(items, p.id)
      case Some(k) => items[k].price
      case None => EffectivePrice(p)
  {
    match FindLine(items, p.id)
    case Some(k) =>
      var line := items[k];
      AddExistingBumpsOnlyItsLine(items, p, k);
      TotalsOfUpdate(items, k, line.(quantity := line.quantity + 1));
      AddOneUnit(line);
    case None =>
      TotalsOfConcat(items, [NewLine(p)]);
      assert [NewLine(p)][..0] == [];
  }

  /** In a cart with distinct ids, removing the `k`-th line's id cuts out exactly that line. */
  lemma RemoveCutsOneLine(items: seq<CartItem>, k: nat)
    requires DistinctIds(items) && k < |items|
    ensures RemoveLine(items, items[k].id) == items[..k] + items[k + 1..]
  {
    var id := items[k].id;
    var front, back := items[..k], items[k + 1..];
    assert items == front + [items[k]] + back;
    forall j | 0 <= j < |front| ensures front[j].id != id {
      assert front[j] == items[j];
    }
    forall j | 0 <= j < |back| ensures back[j].id != id {
      assert back[j] == items[k + 1 + j];
    }
    FilterCutsOne(front, items[k], back, (item: CartItem) => item.id != id);
  }

  /** In a cart with distinct ids, removing a line takes its quantity off the item count and
      its amount off the total. */
  lemma RemoveLineTotals(items: seq<CartItem>, k: nat)
    requires DistinctIds(items) && k < |items|
    ensures ItemCount(RemoveLine(items, items[k].id)) == ItemCount(items) - items[k].quantity
    ensures Total(RemoveLine(items, items[k].id)) == Total(items) - Amount(items[k])
  {
    RemoveCutsOneLine(items, k);
    var front, back := items[..k], items[k + 1..];
    assert items == (front + [items[k]]) + back;
    TotalsOfConcat(front, back);
    TotalsOfConcat(front + [items[k]], back);
    TotalsOfConcat(front, [items[k]]);
    assert [items[k]][..0] == [];
  }

  // -----------------------------------------------------------------------------------------
  // Lemmas about the sign-in merge and the refetch.

  /** Rows of products that no local line names are untouched by the merge. */
  lemma {:induction false} MergeLeavesOtherRows(rows: map<ProductId, int>, local: seq<CartItem>, ok: seq<bool>, id: ProductId)
    requires |ok| == |local| && !HasId(local, id)
    ensures (id in Merge(rows, local, ok)) == (id in rows)
    ensures id in rows ==> Merge(rows, local, ok)[id] == rows[id]
  {
    if local != [] {
      var n := |local|;
      var front := local[..n - 1];
      assert !HasId(front, id) by {
        forall k | 0 <= k < n - 1 ensures front[k].id != id {
          assert front[k] == local[k];
        }
      }
      MergeLeavesOtherRows(rows, front, ok[..n - 1], id);
      assert local[n - 1].id != id;
    }
  }

  /** After the merge, the rows are those there were plus one for every local line whose
      write succeeded. */
  lemma {:induction false} MergeKeys(rows: map<ProductId, int>, local: seq<CartItem>, ok: seq<bool>)
    requires |ok| == |local|
    ensures Merge(rows, local, ok).Keys == rows.Keys + WrittenIds(local, ok)
  {
    if local != [] {
      var n := |local|;
      MergeKeys(rows, local[..n - 1], ok[..n - 1]);
      WrittenIdsSnoc(local, ok);
    }
  }

  /** The ids of the local lines whose write succeeded. */
  function WrittenIds(local: seq<CartItem>, ok: seq<bool>): set<ProductId>
    requires |ok| == |local|
  {
    set k | 0 <= k < |local| && ok[k] :: local[k].id
  }

  /** The written ids, one line at a time. */
  lemma WrittenIdsSnoc(local: seq<CartItem>, ok: seq<bool>)
    requires |ok| == |local| && local != []
    ensures WrittenIds(local, ok) ==
      WrittenIds(local[..|local| - 1], ok[..|ok| - 1]) + (if ok[|ok| - 1] then {local[|local| - 1].id} else {})
  {
    var n := |local|;
    var front, frontOk := local[..n - 1], ok[..n - 1];
    var before := WrittenIds(front, frontOk);
    var after := WrittenIds(local, ok);
    forall x | x in after ensures x in before + (if ok[n - 1] then {local[n - 1].id} else {}) {
      var k :| 0 <= k < n && ok[k] && local[k].id == x;
      if k < n - 1 {
        assert frontOk[k] && front[k].id == x;
      }
    }
    forall x | x in before ensures x in after {
      var k :| 0 <= k < n - 1 && frontOk[k] && front[k].id == x;
      assert ok[k] && local[k].id == x;
    }
  }

  /** When every write succeeds and the local ids are distinct, each local product ends with
      its remote quantity (0 when it had no row) plus its local quantity. */
  lemma {:induction false} MergeAllSucceeded(rows: map<ProductId, int>, local: seq<CartItem>, ok: seq<bool>, k: nat)
    requires |ok| == |local| && DistinctIds(local) && k < |local|
    requires forall j :: 0 <= j < |ok| ==> ok[j]
    ensures local[k].id in Merge(rows, local, ok)
    ensures Merge(rows, local, ok)[local[k].id] == QuantityOr0(rows, local[k].id) + local[k].quantity
  {
    var n := |local|;
    var front := local[..n - 1];
    assert DistinctIds(front);
    if k == n - 1 {
      assert !HasId(front, local[k].id) by {
        forall j | 0 <= j < n - 1 ensures front[j].id != local[k].id {
          assert front[j] == local[j];
        }
      }
      MergeLeavesOtherRows(rows, front, ok[..n - 1], local[k].id);
    } else {
      assert front[k] == local[k];
      MergeAllSucceeded(rows, front, ok[..n - 1], k);
      assert local[n - 1].id != local[k].id;
    }
  }

  /** A refetch that answered with exactly the user's rows, one per product. */
  predicate Answers(rows: seq<CartRow>, table: map<ProductId, int>)
  {
    && (forall i, j :: 0 <= i < j < |rows| ==> rows[i].product.id != rows[j].product.id)
    && (forall k :: 0 <= k < |rows| ==> rows[k].product.id in table && rows[k].quantity == table[rows[k].product.id])
    && (forall id :: id in table ==> exists k :: 0 <= k < |rows| && rows[k].product.id == id)
  }

  /** A faithful refetch gives one line per remote row, with the row's quantity and the
      product's `sale_price || price`, and the ids stay distinct. */
  lemma RefetchMirrorsRows(rows: seq<CartRow>, table: map<ProductId, int>)
    requires Answers(rows, table)
    ensures DistinctIds(MapRows(rows))
    ensures forall id :: HasId(MapRows(rows), id) <==> id in table
    ensures forall k :: 0 <= k < |rows| ==>
      MapRows(rows)[k].quantity == table[MapRows(rows)[k].id] &&
      MapRows(rows)[k].price == EffectivePrice(rows[k].product)
  {
    var items := MapRows(rows);
    forall id | id in table ensures HasId(items, id) {
      var k :| 0 <= k < |rows| && rows[k].product.id == id;
      assert items[k].id == id;
    }
  }

  // -----------------------------------------------------------------------------------------
  // The provider's state and its operations.

  class CartProvider {
    var items: seq<CartItem>
    var user: Option<UserId>
    /** The `cart` key of local storage. */
    var storage: Slot<seq<CartItem>>
    /** The remote `cart_items` table: for each user, product id -> quantity. */
    var remote: map<UserId, map<ProductId, int>>

    function Rows(u: UserId): map<ProductId, int>
      reads this
    {
      if u in remote then remote[u] else map[]
    }

    /** Mounting with nobody signed in: the load effect reads the `cart` key (a missing key
        gives the empty cart, an unparseable one leaves the initial empty cart), then the save
        effect writes the items back. */
    constructor (saved: Slot<seq<CartItem>>, table: map<UserId, map<ProductId, int>>)
      ensures user == None && remote == table
      ensures items == (if saved.Holds? then saved.value else [])
      ensures storage == Holds(items)
    {
      user := None;
      remote := table;
      items := if saved.Holds? then saved.value else [];
      storage := Holds(items);
    }

    /** `fetchCart`: with a user, replace the items by the mapped rows unless the query failed. */
    method FetchCart(fetched: Fetch)
      modifies this
      ensures items == (if user.Some? then Refetched(old(items), fetched) else old(items))
      ensures user == old(user) && storage == old(storage) && remote == old(remote)
    {
      if user.Some? {
        items := Refetched(items, fetched);
      }
    }

    /** The load effect with a signed-in user `uid`: merge a non-empty parsed local cart into
        the user's rows line by line, remove the `cart` key, then refetch. A missing or
        unparseable key, or an empty list, skips the merge and leaves the key alone; the
        refetch runs in every case. `ok[i]` is the outcome of the write for the `i`-th line. */
    method SignIn(uid: UserId, ok: seq<bool>, fetched: Fetch)
      requires storage.Holds? ==> |ok| == |storage.value|
      modifies this
      ensures user == Some(uid)
      ensures old(storage).Holds? && |old(storage).value| > 0 ==>
        remote == old(remote)[uid := Merge(old(Rows(uid)), old(storage).value, ok)] && storage == Absent
      ensures !(old(storage).Holds? && |old(storage).value| > 0) ==>
        remote == old(remote) && storage == old(storage)
      ensures items == Refetched(old(items), fetched)
    {
      user := Some(uid);
      if storage.Holds? && |storage.value| > 0 {
        var local := storage.value;
        var table := Rows(uid);
        var i := 0;
        while i < |local|
          invariant 0 <= i <= |local| && local == old(storage).value && storage == old(storage)
          invariant user == Some(uid) && items == old(items)
          invariant table == Merge(old(Rows(uid)), local[..i], ok[..i])
          invariant i == 0 ==> remote == old(remote)
          invariant i > 0 ==> remote == old(remote)[uid := table]
        {
          assert local[..i + 1][..i] == local[..i] && ok[..i + 1][..i] == ok[..i];
          table := MergeLine(table, local[i], ok[i]);
          remote := remote[uid := table];
          i := i + 1;
        }
        assert local[..i] == local && ok[..i] == ok;
        storage := Absent;
      }
      FetchCart(fetched);
    }

    /** The load effect after sign-out, followed by the save effect: a missing key empties the
        items, a parsed key replaces them, an unparseable key keeps the signed-in items; then
        the items are written to the key. */
    method SignOut()
      modifies this
      ensures user == None && remote == old(remote)
      ensures items == match old(storage)
        case Absent => []
        case Holds(saved) => saved
        case Unparseable => old(items)
      ensures storage == Holds(items)
    {
      user := None;
      match storage {
        case Absent => items := [];
        case Holds(saved) => items := saved;
        case Unparseable =>
      }
      storage := Holds(items);
    }

    /** What `removeFromCart(id)` does, given the delete's outcome and the refetch. */
    twostate predicate Removed(id: ProductId, ok: bool, fetched: Fetch)
      reads this
    {
      && user == old(user)
      && match user
         case None =>
           items == RemoveLine(old(items), id) && storage == Holds(items) && remote == old(remote)
         case Some(u) =>
           && storage == old(storage)
           && if ok then remote == old(remote)[u := old(Rows(u)) - {id}] && items == Refetched(old(items), fetched)
              else remote == old(remote) && items == old(items)
    }

    /** What `updateQuantity(id, q)` does: below 1 it is a removal; otherwise the line is set
        to `q` in memory (after a successful remote update when signed in). */
    twostate predicate Updated(id: ProductId, q: int, ok: bool, fetched: Fetch)
      reads this
    {
      if q < 1 then Removed(id, ok, fetched)
      else
        && user == old(user)
        && match user
           case None =>
             items == SetQuantity(old(items), id, q) && storage == Holds(items) && remote == old(remote)
           case Some(u) =>
             && storage == old(storage)
             && if ok then
                  && remote == old(remote)[u := if id in old(Rows(u)) then old(Rows(u))[id := q] else old(Rows(u))]
                  && items == SetQuantity(old(items), id, q)
                else remote == old(remote) && items == old(items)
    }

    method RemoveFromCart(id: ProductId, ok: bool, fetched: Fetch)
      modifies this
      ensures Removed(id, ok, fetched)
    {
      if user.Some? {
        var u := user.value;
        if ok {
          remote := remote[u := Rows(u) - {id}];
          FetchCart(fetched);
        }
      } else {
        items := RemoveLine(items, id);
        storage := Holds(items);
      }
    }

    method UpdateQuantity(id: ProductId, q: int, ok: bool, fetched: Fetch)
      modifies this
      ensures Updated(id, q, ok, fetched)
    {
      if q < 1 {
        RemoveFromCart(id, ok, fetched);
        return;
      }
      if user.Some? {
        var u := user.value;
        if ok {
          var table := Rows(u);
          remote := remote[u := if id in table then table[id := q] else table];
          items := SetQuantity(items, id, q);
        }
      } else {
        items := SetQuantity(items, id, q);
        storage := Holds(items);
      }
    }

    /** `addToCart(p)`. Anonymous: bump or append in memory and save. Signed in: the
        "already in the cart?" test looks at the in-memory items, not at the remote rows; a hit
        becomes `updateQuantity(id, quantity + 1)`, a miss an insert of quantity 1 and a
        refetch. The insert fails when the remote call fails or the user already has a row for
        the product. */
    method AddToCart(p: Product, ok: bool, fetched: Fetch)
      modifies this
      ensures user.None? ==> old(user).None? && items == AddLine(old(items), p) && storage == Holds(items) && remote == old(remote)
      ensures user.Some? && FindLine(old(items), p.id).Some? ==>
        Updated(p.id, old(items)[FindLine(old(items), p.id).value].quantity + 1, ok, fetched)
      ensures user.Some? && FindLine(old(items), p.id).None? ==>
        && user == old(user) && storage == old(storage)
        && if ok && p.id !in old(Rows(user.value)) then
             remote == old(remote)[user.value := old(Rows(user.value))[p.id := 1]] && items == Refetched(old(items), fetched)
           else remote == old(remote) && items == old(items)
    {
      if user.Some? {
        var u := user.value;
        var existing := FindLine(items, p.id);
        if existing.Some? {
          UpdateQuantity(p.id, items[existing.value].quantity + 1, ok, fetched);
        } else {
          var table := Rows(u);
          if ok && p.id !in table {
            remote := remote[u := table[p.id := 1]];
            FetchCart(fetched);
          }
        }
      } else {
        items := AddLine(items, p);
        storage := Holds(items);
      }
    }

    /** `clearCart()`: empties the items (and, signed in, deletes all the user's rows) unless
        the remote delete failed. */
    method ClearCart(ok: bool)
      modifies this
      ensures user == old(user)
      ensures user.None? ==> items == [] && storage == Holds([]) && remote == old(remote)
      ensures user.Some? ==> (storage == old(storage) &&
        if ok then items == [] && remote == old(remote)[user.value := map[]]
        else items == old(items) && remote == old(remote))
      ensures items == [] ==> Total(items) == 0.0 && ItemCount(items) == 0
    {
      if user.Some? {
        if ok {
          remote := remote[user.value := map[]];
          items := [];
        }
      } else {
        items := [];
        storage := Holds(items);
      }
    }
  }

  /** The cart page's minus button on the `k`-th line: `updateQuantity(item.id, item.quantity - 1)`.
      On a line of quantity 1 it is a removal, and for an anonymous cart with distinct ids it cuts
      out exactly that line. */
  method PressMinus(cart: CartProvider, k: nat, ok: bool, fetched: Fetch)
    requires k < |cart.items|
    modifies cart
    ensures cart.Updated(old(cart.items[k].id), old(cart.items[k].quantity) - 1, ok, fetched)
    ensures old(cart.items[k].quantity) == 1 ==> cart.Removed(old(cart.items[k].id), ok, fetched)
    ensures old(cart.items[k].quantity) == 1 && old(cart.user).None? && DistinctIds(old(cart.items)) ==>
      cart.items == old(cart.items[..k] + cart.items[k + 1..])
  {
    var line := cart.items[k];
    if DistinctIds(cart.items) {
      RemoveCutsOneLine(cart.items, k);
    }
    cart.UpdateQuantity(line.id, line.quantity - 1, ok, fetched);
  }
}
