/** The top-sellers strip: wishlist rows are counted per product, the five most-liked product
    ids are fetched and shown most-liked first; with no likes at all the five newest products
    are shown instead. */
module TopSellers {
  import opened Common
  import opened Seqs

  /** How many product ids are kept: `.slice(0, 5)`. */
  const TopCount: nat := 5

  /** The counting loop: `likeCounts[id] = (likeCounts[id] || 0) + 1` for each row. `counts` is
      the dictionary and `order` its key order, which for string keys is the order in which the
      keys were first written. */
  method CountLikes(likes: seq<ProductId>) returns (counts: map<ProductId, nat>, order: seq<ProductId>)
    ensures counts == Tally(likes)
    ensures order == FirstOccurrences(likes)
  {
    counts, order := map[], [];
    var i := 0;
    while i < |likes|
      invariant 0 <= i <= |likes|
      invariant counts == Tally(likes[..i])
      invariant order == FirstOccurrences(likes[..i])
    {
      var id := likes[i];
      CountingStep(likes[..i], id);
      assert likes[..i + 1] == likes[..i] + [id];
      if id !in counts {
        order := order + [id];
      }
      counts := counts[id := CountOr0(counts, id) + 1];
      i := i + 1;
    }
    assert likes[..|likes|] == likes;
  }

  /** One row of the counting loop: its id's count goes up by one, and the id is appended to the
      key order when it had no count yet. */
  lemma CountingStep(seen: seq<ProductId>, id: ProductId)
    ensures Tally(seen + [id]) == Tally(seen)[id := CountOr0(Tally(seen), id) + 1]
    ensures FirstOccurrences(seen + [id]) ==
      if id in Tally(seen) then FirstOccurrences(seen) else FirstOccurrences(seen) + [id]
  {
    TallySnoc(seen, id);
    TallyCountsOccurrences(seen, id);
    FirstOccurrencesSnoc(seen, id);
  }

  /** The like count of an id, 0 for one never liked. */
  function LikesOf(counts: map<ProductId, nat>, id: ProductId): int
  {
    CountOr0(counts, id)
  }

  /** `Object.entries(likeCounts).sort((a, b) => b - a).slice(0, 5).map(([id]) => id)` */
  function TopIds(counts: map<ProductId, nat>, order: seq<ProductId>): seq<ProductId>
  {
    Take(SortDesc(order, (id: ProductId) => LikesOf(counts, id)), TopCount)
  }

  /** The fetched rows sorted by their like count, largest first. */
  function RankProducts(products: seq<Product>, counts: map<ProductId, nat>): seq<Product>
  {
    SortDesc(products, (p: Product) => LikesOf(counts, p.id))
  }

  /** The rows `.in("id", ids)` returns: those of the table whose id is listed, in table order. */
  function WithIds(table: seq<Product>, ids: seq<ProductId>): seq<Product>
  {
    Filter(table, (p: Product) => p.id in ids)
  }

  /** The top ids have no repeats, there are at most five, each was liked, they come most liked
      first, and there are as many as five or as many distinct products as were liked. */
  lemma TopIdsShape(likes: seq<ProductId>)
    ensures var r := TopIds(Tally(likes), FirstOccurrences(likes));
      Distinct(r)
      && |r| == (if |FirstOccurrences(likes)| <= TopCount then |FirstOccurrences(likes)| else TopCount)
      && (forall id :: id in r ==> id in likes && LikesOf(Tally(likes), id) >= 1)
      && NonIncreasing(r, (id: ProductId) => LikesOf(Tally(likes), id))
      && (r == [] <==> likes == [])
  {
    var counts, order := Tally(likes), FirstOccurrences(likes);
    var key := (id: ProductId) => LikesOf(counts, id);
    var sorted := SortDesc(order, key);
    SortKeepsDistinct(order, key);
    SameMultisetSameElements(sorted, order);
    TakeKeepsShape(sorted, key, TopCount);
    var r := TopIds(counts, order);
    forall id | id in r ensures id in likes && LikesOf(counts, id) >= 1 {
      assert id in sorted;
      TallyCountsOccurrences(likes, id);
    }
    if likes != [] {
      assert likes[0] in order;
    }
  }

  /** Top-k: a liked product left out of the top ids has no more likes than any product kept. */
  lemma TopIdsAreTheMostLiked(likes: seq<ProductId>, x: ProductId, y: ProductId)
    requires x in likes && x !in TopIds(Tally(likes), FirstOccurrences(likes))
    requires y in TopIds(Tally(likes), FirstOccurrences(likes))
    ensures LikesOf(Tally(likes), x) <= LikesOf(Tally(likes), y)
  {
    TopKDominates(FirstOccurrences(likes), (id: ProductId) => LikesOf(Tally(likes), id), TopCount, x, y);
  }

  /** The shown rows are the fetched rows, each as often as fetched, most liked first. */
  lemma RankProductsSpec(products: seq<Product>, counts: map<ProductId, nat>)
    ensures multiset(RankProducts(products, counts)) == multiset(products)
    ensures forall i, j :: 0 <= i < j < |RankProducts(products, counts)| ==>
      LikesOf(counts, RankProducts(products, counts)[i].id) >= LikesOf(counts, RankProducts(products, counts)[j].id)
  {
    var r := RankProducts(products, counts);
    assert NonIncreasing(r, (p: Product) => LikesOf(counts, p.id));
  }

  /** The rows fetched by ids are exactly the table rows carrying one of the ids asked for. */
  lemma WithIdsSpec(table: seq<Product>, ids: seq<ProductId>)
    ensures forall p :: p in WithIds(table, ids) <==> p in table && p.id in ids
  {
    forall p ensures p in WithIds(table, ids) <==> p in table && p.id in ids {
      FilterMembers(table, (q: Product) => q.id in ids, p);
    }
  }

  /** `fetchTopSellers`. `likes` is the answer of the wishlist query, `table` that of the query
      by ids (the products table in its stored order) and `newest` that of the fallback query
      (the products newest first); `None` is a failed query. The result is the value given to
      `setTopProducts`, or `None` when the state is left as it was. */
  method FetchTopSellers(likes: Option<seq<ProductId>>, table: Option<seq<Product>>, newest: Option<seq<Product>>)
    returns (update: Option<seq<Product>>)
    ensures likes.None? ==> update.None?
    ensures likes.Some? && likes.value != [] ==>
      update == if table.Some?
        then Some(RankProducts(WithIds(table.value, TopIds(Tally(likes.value), FirstOccurrences(likes.value))), Tally(likes.value)))
        else None
    ensures likes == Some([]) ==>
      update == if newest.Some? then Some(Take(newest.value, TopCount)) else None
  {
    update := None;
    if likes.None? {
      return;
    }
    var counts, order := CountLikes(likes.value);
    var ids := TopIds(counts, order);
    TopIdsShape(likes.value);
    if |ids| > 0 {
      if table.Some? {
        update := Some(RankProducts(WithIds(table.value, ids), counts));
      }
    } else {
      if newest.Some? {
        update := Some(Take(newest.value, TopCount));
      }
    }
  }

  /** A shown row is a table row of a liked product, and no liked product left out of the top
      ids has more likes than it. */
  lemma ShownAreTopSellers(likes: seq<ProductId>, table: seq<Product>, p: Product)
    requires p in RankProducts(WithIds(table, TopIds(Tally(likes), FirstOccurrences(likes))), Tally(likes))
    ensures p in table && p.id in likes
    ensures forall x :: x in likes && x !in TopIds(Tally(likes), FirstOccurrences(likes)) ==>
      LikesOf(Tally(likes), x) <= LikesOf(Tally(likes), p.id)
  {
    var ids := TopIds(Tally(likes), FirstOccurrences(likes));
    var kept := WithIds(table, ids);
    RankProductsSpec(kept, Tally(likes));
    assert p in multiset(kept);
    WithIdsSpec(table, ids);
    TopIdsShape(likes);
    forall x | x in likes && x !in ids ensures LikesOf(Tally(likes), x) <= LikesOf(Tally(likes), p.id) {
      TopIdsAreTheMostLiked(likes, x, p.id);
    }
  }
}
