/** The trending strip: every product is annotated with its number of likes and the four most
    liked are shown; when the likes cannot be read the first four products are shown as they
    are. */
module TrendingProducts {
  import opened Common
  import opened Seqs
  import TopSellers

  /** How many products are shown: `.slice(0, 4)`. */
  const TrendingCount: nat := 4

  /** A product with its `like_count` field, which is absent on the fallback path. */
  datatype Trending = Trending(product: Product, likeCount: Option<nat>)

  /** The sort key: `like_count`, read as 0 when absent. */
  function LikeKey(t: Trending): int
  {
    if t.likeCount.Some? then t.likeCount.value else 0
  }

  /** `{...product, like_count: likeCounts[product.id] || 0}` for each product. */
  function Annotate(products: seq<Product>, counts: map<ProductId, nat>): (r: seq<Trending>)
    ensures |r| == |products|
    ensures forall k :: 0 <= k < |r| ==> r[k].product == products[k]
  {
    seq(|products|, k requires 0 <= k < |products| => Trending(products[k], Some(CountOr0(counts, products[k].id))))
  }

  /** The value without annotation. */
  function Plain(products: seq<Product>): (r: seq<Trending>)
    ensures |r| == |products|
    ensures forall k :: 0 <= k < |r| ==> r[k].product == products[k]
  {
    seq(|products|, k requires 0 <= k < |products| => Trending(products[k], None))
  }

  /** The annotated products, most liked first, cut to four. */
  function Ranked(products: seq<Product>, counts: map<ProductId, nat>): seq<Trending>
  {
    Take(SortDesc(Annotate(products, counts), (t: Trending) => LikeKey(t)), TrendingCount)
  }

  /** Each shown entry is a product of the catalogue carrying its number of likes, there are
      four of them or all products when fewer, and they come most liked first. */
  lemma RankedSpec(products: seq<Product>, likes: seq<ProductId>)
    ensures var r := Ranked(products, Tally(likes));
      |r| == (if |products| <= TrendingCount then |products| else TrendingCount)
      && (forall t :: t in r ==> t.product in products && t.likeCount == Some(multiset(likes)[t.product.id]))
      && (forall i, j :: 0 <= i < j < |r| ==> LikeKey(r[i]) >= LikeKey(r[j]))
  {
    var counts := Tally(likes);
    var key := (t: Trending) => LikeKey(t);
    var all := Annotate(products, counts);
    var sorted := SortDesc(all, key);
    var r := Ranked(products, counts);
    SameMultisetSameElements(sorted, all);
    assert forall k :: 0 <= k < |r| ==> r[k] == sorted[k];
    forall t | t in r ensures t.product in products && t.likeCount == Some(multiset(likes)[t.product.id]) {
      assert t in all;
      var k :| 0 <= k < |all| && all[k] == t;
      TallyCountsOccurrences(likes, products[k].id);
    }
    assert NonIncreasing(sorted, key);
  }

  /** Top-k: a product left out has no more likes than any product shown. */
  lemma RankedAreTheMostLiked(products: seq<Product>, likes: seq<ProductId>, k: nat, t: Trending)
    requires k < |products|
    requires Annotate(products, Tally(likes))[k] !in Ranked(products, Tally(likes))
    requires t in Ranked(products, Tally(likes))
    ensures multiset(likes)[products[k].id] <= LikeKey(t)
  {
    var all := Annotate(products, Tally(likes));
    TopKDominates(all, (e: Trending) => LikeKey(e), TrendingCount, all[k], t);
    TallyCountsOccurrences(likes, products[k].id);
  }

  /** `fetchTrendingProducts`. `products` is the answer of the catalogue query and `likes` that
      of the likes query; `None` is a failed query. The result is the value given to
      `setTrendingProducts`, or `None` when the state is left as it was. */
  method FetchTrending(products: Option<seq<Product>>, likes: Option<seq<ProductId>>)
    returns (update: Option<seq<Trending>>)
    ensures products.None? ==> update.None?
    ensures products.Some? && likes.None? ==> update == Some(Plain(Take(products.value, TrendingCount)))
    ensures products.Some? && likes.Some? ==> update == Some(Ranked(products.value, Tally(likes.value)))
  {
    if products.None? {
      return None;
    }
    if likes.None? {
      return Some(Plain(Take(products.value, TrendingCount)));
    }
    var counts, _ := TopSellers.CountLikes(likes.value);
    update := Some(Ranked(products.value, counts));
  }

  /** Whichever path is taken, at most four products are shown, all from the catalogue. */
  lemma TrendingIsSmall(products: seq<Product>, likes: Option<seq<ProductId>>)
    ensures var r := if likes.None? then Plain(Take(products, TrendingCount)) else Ranked(products, Tally(likes.value));
      |r| <= TrendingCount && forall t :: t in r ==> t.product in products
  {
    if likes.Some? {
      RankedSpec(products, likes.value);
    } else {
      var r := Plain(Take(products, TrendingCount));
      forall t | t in r ensures t.product in products {
        var k :| 0 <= k < |r| && r[k] == t;
        assert r[k].product == products[k];
      }
    }
  }
}
