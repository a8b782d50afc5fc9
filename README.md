# StyleHub storefront core, modelled in Dafny

StyleHub is a React storefront backed by a Supabase database. Most of it is JSX and direct
database calls. Under that sit a few stateful providers and list algorithms, and this project
models and proves those:

- **Cart provider** (`CartContext`):
  - an ordered list of cart lines, saved to the `cart` key of local storage while nobody is
    signed in;
  - backed by the remote `cart_items` table while a user is signed in;
  - on sign-in, a loop merges the anonymous cart into the user's rows, then removes the key.
- **Wishlist provider** (`WishlistContext`): an ordered list with set semantics, for signed-in
  users only, filled from `wishlist_items` on sign-in and emptied on sign-out.
- **Recently-viewed hook** (`RecentlyViewedHook`): a most-recently-used list of at most 8
  product ids, mirrored to the `stylehub_recently_viewed` key.
- **Home filter** (`HomeFilter`): text search, then category, then price band.
- **Top sellers** (`TopSellers`) and **trending products** (`TrendingProducts`): like counting
  followed by a top-5 or top-4 ranking, each with its fallback.
- **Recently-viewed strip** (`RecentlyViewedStrip`): fetched products put back in the order of
  the viewed ids.
- **Promo banner** (`PromoBanner`): a carousel index over three slides.
- **Duplicate check script** (`DuplicateCheck`): `.env` line parsing, title counting with
  duplicate detection, and the list of distinct categories.

Shared pieces live in `Common` and `Seqs`:

- `Common`: the product record, optional values, a local-storage slot, and the
  `sale_price || price` rule.
- `Seqs`: filtering, subsequences, counting into a dictionary, first occurrences, and a stable
  descending insertion sort with its top-k lemma.

How the model treats the outside world:

- **Remote calls.** The remote store is a map from user to that user's rows. Each remote write
  is a success flag passed in. Each refetch is the response it returned, or a failure.
- **Local storage.** A storage key is `Absent`, `Holds(list)` or `Unparseable`.
- **State changes.** Each React state update together with its effects is treated as one atomic
  step.
- **Numbers.** Prices are `real`s. `sale_price || price` uses JavaScript truthiness, so a sale
  price of 0 falls back to the list price. The carousel's `%` is written out with JavaScript's
  sign rule.

Three behaviours of the code are worth knowing, because the code's own comments or
neighbouring code suggest otherwise. The model follows the code:

- **Sign-out of the cart.** The wishlist clears its items on logout
  (src/contexts/WishlistContext.tsx:33), but the cart does not. The cart's load effect runs
  again with no user:
  - a missing `cart` key empties the items;
  - a key that parses replaces the items with its value;
  - a key that does not parse keeps the signed-in items.
  The save effect then writes the items to the key (`CartContext.CartProvider.SignOut`).
- **Captured unit price.** The product card shows a sale only when `sale_price < price`
  (src/components/ProductCardEnhanced.tsx:162). The cart takes `sale_price || price` with no
  comparison (`Common.EffectivePrice`), so a sale price above the list price is the one charged.
- **Quantity updates.** The signed-in branch of `updateQuantity` is commented "Optimistic update
  or refetch" (src/contexts/CartContext.tsx:200). The code changes the in-memory line only after
  the remote update succeeded, and leaves it unchanged on error
  (`CartContext.CartProvider.UpdateQuantity`).

## Model

| member | source | states |
|---|---|---|
| `Common.EffectivePrice` | src/contexts/CartContext.tsx:155 | The captured unit price is the sale price when one is present and non-zero. Otherwise it is the list price. It is never compared with the list price. |
| `Seqs.Filter` | src/contexts/CartContext.tsx:178 | `Array.prototype.filter`. `FilterMembers`: kept exactly when in the list and passing the test. `FilterCounts`: a passing element is kept as often as it occurs. `FilterIsSubseq`: the order is kept. |
| `Seqs.Take` | src/hooks/useRecentlyViewed.ts:23 | `.slice(0, k)`: the first k elements, or all when there are fewer (its own ensures). `TakeIsSubseq`: a subsequence of what it cuts. |
| `Seqs.Tally` | src/components/TopSellers.tsx:32-35 | The dictionary the counting loop `m[x] = (m[x] or 0) + 1` builds. `TallyCountsOccurrences`: each count is the number of occurrences, and the keys are exactly the values that occur. |
| `Seqs.FilterCounts` | src/contexts/CartContext.tsx:178 | A filter keeps each passing element exactly as many times as it occurs, and no failing one. |
| `Seqs.FilterMembers` | src/pages/Home.tsx:53-57 | An element is kept by a filter exactly when it is in the list and passes the test. |
| `Seqs.FilterIsSubseq` | src/contexts/CartContext.tsx:178 | A filter keeps the surviving elements in their original order (a subsequence). |
| `Seqs.FirstOccurrences` | src/components/TopSellers.tsx:38 | The key order of an object filled by a counting loop: every key once, and exactly the values that occur. |
| `Seqs.SortDesc` | src/components/TopSellers.tsx:39 | The sort returns the same multiset, in non-increasing key order. |
| `Seqs.TopKDominates` | src/components/TopSellers.tsx:38-41 | After sorting and keeping the first k, nothing left out has a larger key than anything kept. |
| `Seqs.TallyCountsOccurrences` | src/components/TopSellers.tsx:32-35 | After the counting loop each value's count is its number of occurrences, and the keys are exactly the values that occur. |
| `CartContext.NewLine` | src/contexts/CartContext.tsx:151-158 | The line a first add appends. `AddNewAppends`: quantity 1 and the captured unit price (`EffectivePrice`). |
| `CartContext.Bump` | src/contexts/CartContext.tsx:142-149 | The `map` that raises one product's quantity. `AddExistingBumpsOnlyItsLine`: only that line changes, by one, in place. |
| `CartContext.AddLine` | src/contexts/CartContext.tsx:141-159 | Anonymous `addToCart`. `AddNewAppends`, `AddExistingBumpsOnlyItsLine`, `AddKeepsDistinct`, `RepeatedAdds` and `AddLineTotals` state what it does. |
| `CartContext.SetQuantity` | src/contexts/CartContext.tsx:201-211 | The `map` of `updateQuantity`. `SetQuantitySpec`: only the line with the id changes. |
| `CartContext.RemoveLine` | src/contexts/CartContext.tsx:178 | `filter(i => i.id !== id)`. `RemoveLineSpec`, `RemoveKeepsDistinct`, `RemoveCutsOneLine` and `RemoveLineTotals` state what it does. |
| `CartContext.LineOf` | src/contexts/CartContext.tsx:110-116 | One fetched row as a cart line. `RefetchMirrorsRows`: the row's product id, quantity and captured unit price. |
| `CartContext.MapRows` | src/contexts/CartContext.tsx:110-116 | `data.map(...)` over the fetched rows. `RefetchMirrorsRows`: one line per row, in order, with distinct ids. |
| `CartContext.Refetched` | src/contexts/CartContext.tsx:97-119 | `fetchCart`'s effect on the items: the mapped rows, or no change on error. `RefetchMirrorsRows` and `CartProvider.FetchCart` state it. |
| `CartContext.Total` | src/contexts/CartContext.tsx:233 | `reduce` of price times quantity. `TotalsOfConcat`, `TotalsOfUpdate`, `AddLineTotals` and `RemoveLineTotals` state how it moves. |
| `CartContext.ItemCount` | src/contexts/CartContext.tsx:234 | `reduce` of the quantities. `TotalsOfConcat`, `TotalsOfUpdate`, `AddLineTotals` and `RemoveLineTotals` state how it moves. |
| `CartContext.MergeLine` | src/contexts/CartContext.tsx:49-62 | One line of the sign-in merge: add to an existing row, insert a new one, or no change on a failed write. `MergeLeavesOtherRows`, `MergeKeys` and `MergeAllSucceeded` state the whole loop. |
| `CartContext.Merge` | src/contexts/CartContext.tsx:41-64 | The sign-in merge over the local lines in order. `MergeLeavesOtherRows`, `MergeKeys` and `MergeAllSucceeded` state the result, and `CartProvider.SignIn`'s loop is tied to it. |
| `CartContext.FindLine` | src/contexts/CartContext.tsx:123 | `items.find` by id gives the first line with that id, and finds nothing exactly when no line has the id. |
| `CartContext.AddNewAppends` | src/contexts/CartContext.tsx:151-158 | An anonymous add of a product not in the cart appends one line: quantity 1, and as unit price the sale price when set and non-zero, else the list price. |
| `CartContext.AddExistingBumpsOnlyItsLine` | src/contexts/CartContext.tsx:142-149 | An anonymous add of a product already in the cart raises that line's quantity by 1, in place. Every other line is unchanged. |
| `CartContext.AddKeepsDistinct` | src/contexts/CartContext.tsx:141-159 | An anonymous add keeps the line ids distinct. |
| `CartContext.RepeatedAdds` | src/contexts/CartContext.tsx:141-159 | n adds of a new product give one line for it, with quantity n, at the end. |
| `CartContext.RemoveLineSpec` | src/contexts/CartContext.tsx:178 | After a removal no line has the id. The other lines keep their order, membership is exactly "was there and has another id", and removing an absent id changes nothing. |
| `CartContext.RemoveKeepsDistinct` | src/contexts/CartContext.tsx:178 | A removal keeps the line ids distinct. |
| `CartContext.RemoveCutsOneLine` | src/contexts/CartContext.tsx:178 | With distinct ids, removing the k-th line's id cuts out exactly that line. |
| `CartContext.SetQuantitySpec` | src/contexts/CartContext.tsx:201-211 | Setting a quantity changes only the line with that id, with no upper bound. For an absent id nothing changes, and the ids stay distinct. |
| `CartContext.TotalsOfConcat` | src/contexts/CartContext.tsx:233-234 | `total` and `itemCount` add up over a concatenation. |
| `CartContext.TotalsOfUpdate` | src/contexts/CartContext.tsx:233-234 | Replacing one line changes `total` by the difference in its price times quantity, and `itemCount` by the difference in its quantity. |
| `CartContext.AddLineTotals` | src/contexts/CartContext.tsx:141-159 | An anonymous add raises `itemCount` by 1. It raises `total` by the unit price of the line it touched, or by the product's captured unit price for a new line. |
| `CartContext.RemoveLineTotals` | src/contexts/CartContext.tsx:233-234 | Removing a line takes its quantity off `itemCount` and its price times quantity off `total`. |
| `CartContext.MergeLeavesOtherRows` | src/contexts/CartContext.tsx:41-64 | The sign-in merge leaves untouched every remote row whose product has no local line. |
| `CartContext.MergeKeys` | src/contexts/CartContext.tsx:41-64 | After the merge, the remote products are the old ones plus those of the local lines whose write succeeded. |
| `CartContext.MergeAllSucceeded` | src/contexts/CartContext.tsx:49-62 | When every write succeeds, each local product ends with its remote quantity (0 if it had no row) plus its local quantity. |
| `CartContext.RefetchMirrorsRows` | src/contexts/CartContext.tsx:109-117 | A refetch that returned the user's rows gives one line per row, with the row's quantity and the product's captured unit price, and distinct ids. |
| `CartContext.CartProvider.constructor` | src/contexts/CartContext.tsx:76-95 | Mounting anonymously loads the saved list (empty when the key is missing or does not parse), then saves the items back to the key. |
| `CartContext.CartProvider.FetchCart` | src/contexts/CartContext.tsx:97-119 | With a user, the items become the mapped rows unless the query failed. Without a user nothing changes. |
| `CartContext.CartProvider.SignIn` | src/contexts/CartContext.tsx:33-75 | A non-empty parsed cart is merged into the user's rows line by line, and then the key is removed. A missing or unparseable key, or an empty list, skips the merge and keeps the key. The refetch always runs. |
| `CartContext.CartProvider.SignOut` | src/contexts/CartContext.tsx:76-95 | With no user, the load effect reloads the items from the key (missing key: empty; unparseable: unchanged). Then the items are saved. |
| `CartContext.CartProvider.RemoveFromCart` | src/contexts/CartContext.tsx:163-181 | Anonymous: the lines with the id are filtered out and saved. Signed in: on success the row is deleted and the cart refetched; on error nothing changes. |
| `CartContext.CartProvider.UpdateQuantity` | src/contexts/CartContext.tsx:183-213 | A quantity below 1 is a removal. Otherwise only that line is set (after a successful remote update when signed in), and on error nothing changes. |
| `CartContext.CartProvider.AddToCart` | src/contexts/CartContext.tsx:121-161 | Anonymous: bump or append, then save. Signed in, the in-memory items decide: an existing line becomes `updateQuantity(id, quantity + 1)`; otherwise an insert of quantity 1 and a refetch, or no change on error. |
| `CartContext.CartProvider.ClearCart` | src/contexts/CartContext.tsx:215-231 | The items are emptied and, when signed in, all the user's rows deleted, unless the delete failed. An emptied cart has `total` 0 and `itemCount` 0. |
| `CartContext.PressMinus` | src/pages/Cart.tsx:66 | The minus button is an update to quantity - 1. On a quantity-1 line it is a removal, and in an anonymous cart with distinct ids it cuts out exactly that line. |
| `WishlistContext.Entries` | src/contexts/WishlistContext.tsx:57-64 | The fetched rows as wishlist entries. `EntriesUseListPrice`: row order kept, list price carried. |
| `WishlistContext.RemoveEntry` | src/contexts/WishlistContext.tsx:105 | `filter(i => i.id !== id)`. `RemoveEntrySpec`: the id is gone and the others keep their order. |
| `WishlistContext.IsInWishlist` | src/contexts/WishlistContext.tsx:109-111 | True exactly when some item has the id. |
| `WishlistContext.EntriesUseListPrice` | src/contexts/WishlistContext.tsx:57-64 | Fetched entries keep the row order and carry the list price, never the sale price. |
| `WishlistContext.AppendNewKeepsDistinct` | src/contexts/WishlistContext.tsx:75-87 | Appending a product not yet listed keeps the ids distinct, lists it once, and makes the membership test true. |
| `WishlistContext.RemoveEntrySpec` | src/contexts/WishlistContext.tsx:105 | After a removal the id is absent, and the other entries keep their order. |
| `WishlistContext.WishlistProvider.constructor` | src/contexts/WishlistContext.tsx:25-26 | The wishlist starts empty with no user. |
| `WishlistContext.WishlistProvider.SignIn` | src/contexts/WishlistContext.tsx:29-66 | When a user appears, the items become the fetched entries, or stay as they were when the query failed. |
| `WishlistContext.WishlistProvider.SignOut` | src/contexts/WishlistContext.tsx:29-35 | When the user becomes null, the items become empty. |
| `WishlistContext.WishlistProvider.AddToWishlist` | src/contexts/WishlistContext.tsx:68-89 | Nothing happens without a user or for a product already listed. Otherwise a successful insert appends exactly that product and a failed one changes nothing. Distinct ids stay distinct. |
| `WishlistContext.WishlistProvider.RemoveFromWishlist` | src/contexts/WishlistContext.tsx:91-107 | Nothing happens without a user or on a store error. Otherwise the entries with the id are dropped and `isInWishlist(id)` becomes false. |
| `WishlistContext.AddTwiceKeepsOne` | src/contexts/WishlistContext.tsx:75 | Two adds of one product leave at most one new entry, and the ids stay distinct. |
| `RecentlyViewedHook.Pushed` | src/hooks/useRecentlyViewed.ts:22-23 | `[id, ...prev.filter(x => x !== id)].slice(0, 8)`. `PushedPutsIdFirstOnce`, `PushedKeepsOrder`, `PushedKeepsDistinct` and `PushingHeadIsIdempotent` state what it does. |
| `RecentlyViewedHook.PushedPutsIdFirstOnce` | src/hooks/useRecentlyViewed.ts:22-23 | After an add the id comes first and nowhere else, and the list has between 1 and 8 ids. |
| `RecentlyViewedHook.PushedKeepsOrder` | src/hooks/useRecentlyViewed.ts:22-23 | The new list is the id followed by a prefix of the old list with the id removed. The other ids keep their relative order. |
| `Seqs.TakeIsSubseq` | src/hooks/useRecentlyViewed.ts:23 | The `.slice(0, MAX_ITEMS)` cut is a subsequence of what it cuts. |
| `RecentlyViewedHook.PushedKeepsDistinct` | src/hooks/useRecentlyViewed.ts:22-23 | A list without repeats stays without repeats. |
| `RecentlyViewedHook.PushingHeadIsIdempotent` | src/hooks/useRecentlyViewed.ts:22-23 | Adding the id already at the head of a list without repeats (of at most 8 ids) changes nothing. |
| `RecentlyViewedHook.RecentlyViewed.constructor` | src/hooks/useRecentlyViewed.ts:7-18 | A stored list that parses becomes the state. An unparseable value, or a missing key, gives the empty list. |
| `RecentlyViewedHook.RecentlyViewed.Add` | src/hooks/useRecentlyViewed.ts:20-27 | The state becomes the pushed list, which the key now holds. The id is first and there are at most 8 ids. |
| `RecentlyViewedHook.RecentlyViewed.Clear` | src/hooks/useRecentlyViewed.ts:29-32 | The key is removed and the list emptied. |
| `HomeFilter.Lower` | src/pages/Home.tsx:54-56 | `toLowerCase` on ASCII letters: same length, each character lowered (its own ensures). |
| `HomeFilter.Includes` | src/pages/Home.tsx:54-56 | `String.prototype.includes`. `IncludesAt`: true exactly when the needle occurs at some position. |
| `HomeFilter.MatchesSearch` | src/pages/Home.tsx:53-57 | Title, brand or description contains the query, ignoring ASCII case. `FilterProductsSpec` and `IncludesAt` state its use. |
| `HomeFilter.InCategory` | src/pages/Home.tsx:61-65 | Equal categories ignoring ASCII case. `ShownAreInCategory` states its use. |
| `HomeFilter.InPriceBand` | src/pages/Home.tsx:70-79 | The price switch. `BandsPartition`: every price is in exactly one named band. `BandIgnoresSalePrice`: only the list price is read. |
| `HomeFilter.FilterProducts` | src/pages/Home.tsx:47-85 | `filterProducts`. `FilterProductsIsOneFilter`, `FilterProductsSpec`, `DefaultsShowEverything`, `ShownAreInCategory` and `FilterProductsIdempotent` state what it does. |
| `HomeFilter.IncludesAt` | src/pages/Home.tsx:54-56 | `includes` holds exactly when the needle occurs at some position of the text. |
| `HomeFilter.FilterProductsIsOneFilter` | src/pages/Home.tsx:47-85 | The three conditional filters in a row equal one filter by "query empty or matches, category All or equal ignoring case, band all or price in band". |
| `HomeFilter.FilterProductsSpec` | src/pages/Home.tsx:48-84 | The output is a subsequence of the catalogue. A product is in it exactly when it is in the catalogue and passes the combined test (a missing brand or description does not match). |
| `HomeFilter.DefaultsShowEverything` | src/pages/Home.tsx:51-68 | With query "", category "All" and band "all", the output is the catalogue. |
| `HomeFilter.ShownAreInCategory` | src/pages/Home.tsx:61-65 | With a category other than "All", every shown product's lower-cased category equals the lower-cased choice. |
| `HomeFilter.BandsPartition` | src/pages/Home.tsx:72-79 | Every price is in exactly one of the bands under50, 50to100 and over100. |
| `HomeFilter.BandIgnoresSalePrice` | src/pages/Home.tsx:70 | Changing only the sale price never moves a product into or out of a band. |
| `HomeFilter.FilterProductsIdempotent` | src/pages/Home.tsx:47-85 | Filtering the output again with the same controls returns it unchanged. |
| `TopSellers.CountLikes` | src/components/TopSellers.tsx:32-35 | The loop ends with each product id mapped to its number of like rows, and the keys in first-seen order. `TrendingProducts` runs the same loop (src/components/TrendingProducts.tsx:54-57). |
| `TopSellers.TopIds` | src/components/TopSellers.tsx:38-41 | The five most-liked ids. `TopIdsShape` and `TopIdsAreTheMostLiked` state what they are. |
| `TopSellers.WithIds` | src/components/TopSellers.tsx:44-47 | The rows `.in("id", ids)` returns. `WithIdsSpec`: exactly the table rows with a listed id. |
| `TopSellers.RankProducts` | src/components/TopSellers.tsx:51-53 | The rows sorted by like count. `RankProductsSpec`: the same rows, most liked first. |
| `TopSellers.TopIdsShape` | src/components/TopSellers.tsx:38-41 | The selection has no repeats, min(5, number of liked products) ids, each liked at least once, most liked first. It is empty exactly when there are no like rows. |
| `TopSellers.TopIdsAreTheMostLiked` | src/components/TopSellers.tsx:38-41 | A liked id left out has no more likes than any selected id. |
| `TopSellers.RankProductsSpec` | src/components/TopSellers.tsx:51-53 | The shown products are the fetched rows rearranged (same multiset), in non-increasing like count. |
| `TopSellers.WithIdsSpec` | src/components/TopSellers.tsx:44-47 | The rows fetched by ids are exactly the table rows whose id was asked for. |
| `TopSellers.FetchTopSellers` | src/components/TopSellers.tsx:24-69 | A failed likes query changes nothing. Likes give the ranked rows of the top ids, if that query answered. No likes give the first five newest products, if that query answered. |
| `TopSellers.ShownAreTopSellers` | src/components/TopSellers.tsx:43-55 | A shown product is a table row of a liked product, and no liked product left out has more likes. |
| `TrendingProducts.Plain` | src/components/TrendingProducts.tsx:48-51 | The fallback value without like counts: every product, its fields and their order (its own ensures). `TrendingIsSmall` bounds it. |
| `TrendingProducts.Ranked` | src/components/TrendingProducts.tsx:60-66 | Annotate, sort by like count, keep four. `RankedSpec` and `RankedAreTheMostLiked` state what it gives. |
| `TrendingProducts.Annotate` | src/components/TrendingProducts.tsx:60-64 | Annotation keeps every product, and its fields, in order. |
| `TrendingProducts.RankedSpec` | src/components/TrendingProducts.tsx:54-66 | The result has min(4, number of products) entries. Each is a fetched product whose `like_count` is its number of like rows (0 if none), in non-increasing order. |
| `TrendingProducts.RankedAreTheMostLiked` | src/components/TrendingProducts.tsx:60-66 | A product left out has no more likes than any product shown. |
| `TrendingProducts.FetchTrending` | src/components/TrendingProducts.tsx:35-69 | A failed product query changes nothing. A failed likes query shows the first four products unannotated. Otherwise the four most-liked products are shown. |
| `TrendingProducts.TrendingIsSmall` | src/components/TrendingProducts.tsx:48-66 | On either path, at most four products are shown, all from the catalogue. |
| `RecentlyViewedStrip.FindById` | src/components/RecentlyViewed.tsx:50 | `find` gives the first product with the id, and nothing exactly when none has it. |
| `RecentlyViewedStrip.Reorder` | src/components/RecentlyViewed.tsx:49-51 | `ids.map(find).filter(Boolean)`. `ReorderSpec`, `ReorderKeepsViewingOrder` and `ReorderKeepsDistinct` state what it gives. |
| `RecentlyViewedStrip.ReorderSpec` | src/components/RecentlyViewed.tsx:49-51 | The ids of the result are the viewed ids, in order, without those for which no product came back. Every result is a fetched product. |
| `RecentlyViewedStrip.ReorderKeepsViewingOrder` | src/components/RecentlyViewed.tsx:49-51 | The result is no longer than the ids. Its ids are a subsequence of the viewed ids, and when every id came back they are the viewed ids. |
| `RecentlyViewedStrip.ReorderKeepsDistinct` | src/components/RecentlyViewed.tsx:49-51 | Viewed ids without repeats give products without repeated ids. |
| `RecentlyViewedStrip.OnProductIds` | src/components/RecentlyViewed.tsx:33-54 | An empty id list clears the products without a query. A failed query changes nothing. Otherwise the result is the fetched products put in the order of the viewed ids (`Reorder`), each fetched and with a viewed id, no more of them than ids. |
| `RecentlyViewedStrip.Cards` | src/components/RecentlyViewed.tsx:82 | The first four products are rendered, in order: exactly four, or all of them when there are fewer. |
| `PromoBanner.JsRem` | src/components/PromoBanner.tsx:42 | JavaScript `%` by the slide count: in range for a non-negative dividend, never positive for a negative one, and congruent to the dividend. |
| `PromoBanner.Next` | src/components/PromoBanner.tsx:49 | From a slide in range, step to the next one, wrapping from the last to 0. |
| `PromoBanner.Prev` | src/components/PromoBanner.tsx:48 | From a slide in range, step to the previous one, wrapping from 0 to the last. |
| `PromoBanner.PrevUndoesNext` | src/components/PromoBanner.tsx:48-49 | prev after next, and next after prev, give back the slide. |
| `PromoBanner.NextCycles` | src/components/PromoBanner.tsx:49 | Three nexts give back the slide, and one next always moves. |
| `PromoBanner.Dots` | src/components/PromoBanner.tsx:105-113 | There are three dots, and dot k is lit exactly when k is the current slide. |
| `PromoBanner.OneDotLit` | src/components/PromoBanner.tsx:105-111 | For a slide in range, exactly its own dot is lit. |
| `PromoBanner.Banner.constructor` | src/components/PromoBanner.tsx:38 | The banner starts at slide 0. |
| `PromoBanner.Banner.NextSlide` | src/components/PromoBanner.tsx:49 | The index takes the next step and stays in [0, 3). |
| `PromoBanner.Banner.PrevSlide` | src/components/PromoBanner.tsx:48 | The index takes the previous step and stays in [0, 3). |
| `PromoBanner.Banner.Tick` | src/components/PromoBanner.tsx:42 | A timer tick is the same transition as the right arrow. |
| `PromoBanner.Banner.GoToSlide` | src/components/PromoBanner.tsx:47 | The index becomes the given one, which is in range for every dot. |
| `DuplicateCheck.SecondOccurrences` | scripts/check_db_duplicates.ts:50-52 | The titles pushed when their count becomes 2. `SecondOccurrencesSpec`: exactly the titles occurring twice or more, each once. |
| `DuplicateCheck.SecondOccurrencesSpec` | scripts/check_db_duplicates.ts:50-52 | A title is listed exactly when it occurs at least twice, and it is listed once. |
| `DuplicateCheck.FindDuplicates` | scripts/check_db_duplicates.ts:44-53 | The loop ends with each title's row count, and the duplicated titles in the order of their second occurrence. |
| `DuplicateCheck.DuplicatesAreSharedTitles` | scripts/check_db_duplicates.ts:44-53 | `titleCounts[t]` is the number of rows titled t, and t is in `duplicates` exactly when that count is at least 2. |
| `DuplicateCheck.Categories` | scripts/check_db_duplicates.ts:65 | Each category present is listed exactly once, and nothing else. |
| `DuplicateCheck.CheckDuplicates` | scripts/check_db_duplicates.ts:26-67 | A query error reports the error. A `null` answer or no rows reports that there are no products. Otherwise the count, the title counts, the duplicates and the categories are reported. |
| `DuplicateCheck.SplitOn` | scripts/check_db_duplicates.ts:9-10 | `split`. `SplitJoin`, `BeforeAfter` and `SplitFirst` state what the pieces are. |
| `DuplicateCheck.SplitJoin` | scripts/check_db_duplicates.ts:9-10 | The pieces of a split join back to the text, and none contains the separator. |
| `DuplicateCheck.BeforeAfter` | scripts/check_db_duplicates.ts:10 | A text with the separator is the part before its first occurrence, the separator, and the rest. |
| `DuplicateCheck.SplitFirst` | scripts/check_db_duplicates.ts:10 | The first piece is the text before the first separator, and the remaining pieces are the split of the rest. |
| `DuplicateCheck.TrimStart` | scripts/check_db_duplicates.ts:12 | The result is a suffix without leading white space, and only white space was removed. |
| `DuplicateCheck.TrimEnd` | scripts/check_db_duplicates.ts:12 | The result is a prefix without trailing white space, and only white space was removed. |
| `DuplicateCheck.Trim` | scripts/check_db_duplicates.ts:12 | The result neither starts nor ends with white space. |
| `DuplicateCheck.ParseLine` | scripts/check_db_duplicates.ts:10-13 | One `.env` line. `ParseLineSpec`: the trimmed first two `=` pieces, or skipped. |
| `DuplicateCheck.ApplyEntries` | scripts/check_db_duplicates.ts:9-14 | The parsed lines written in order. `UnsetKeyKept` and `LastLineWins` state the result, and `LoadEnv`'s loop is tied to it. |
| `DuplicateCheck.ParseLineSpec` | scripts/check_db_duplicates.ts:10-13 | The key is the trimmed text before the first `=`, and the value the trimmed text between the first and second `=`. A line without `=`, or with an empty key or value piece before trimming, is skipped. |
| `DuplicateCheck.UnsetKeyKept` | scripts/check_db_duplicates.ts:9-14 | A key that no line sets keeps its old value, or stays unset. |
| `DuplicateCheck.LastLineWins` | scripts/check_db_duplicates.ts:9-14 | A key ends with the value of the last line that sets it. |
| `DuplicateCheck.LoadEnv` | scripts/check_db_duplicates.ts:7-15 | The loop over the lines of the file applies every parsed line in order. |

## Left out

- Supabase queries, authentication and toasts. These are network I/O through a foreign client.
  Each call is a success flag, or the rows it answered; `null`/error answers are `None` or a
  failed fetch.
- Every insert into a table keyed by user and product (`cart_items` in the sign-in merge and
  in `addToCart`, `wishlist_items` in `addToWishlist`) is taken to fail when that row already
  exists. `CartContext.MergeLine`, `CartContext.CartProvider.AddToCart` and
  `WishlistContext.WishlistProvider.AddToWishlist` rely on it.
- The signed-in merge's per-line `select ... single()`. The model collapses the select and the
  following update or insert into one outcome per line.
- Asynchronous interleaving: double clicks, overlapping awaits, and React batching of
  `setItems` updaters. Every operation and effect is one atomic step.
- Floating-point prices, `parseFloat`, `toFixed` and the quick-view discount rounding. Prices
  are `real`.
- JSON parsing. A stored value is a list or unparseable; a valid JSON non-list is not
  distinguished.
- Unicode case folding and trimming. `Lower` maps only ASCII letters, and `Trim` strips only
  ASCII white space.
- The `setInterval` timer itself and the `Date.now()` checks. A timer tick is `Tick`.
- The favourite/like toggles on product cards, all pure UI and routing, the checkout modal and
  the seller pages.
- `wishlistCount`. It is `items.length`, and the model reads `|items|` directly.
- The top-sellers `Object.entries` order. The JavaScript rule puts integer-like keys first. The
  model uses first-insertion order, as for the UUID product ids the table holds.
- Seqs.SortDesc: does not prove that the sort is stable. It is written as an insertion that
  keeps equal keys in their order, like `Array.prototype.sort`, but only the permutation and the
  ordering are proved.
- DuplicateCheck.Trim: states only that the ends are not white space. That only white space
  was removed is stated by `TrimStart` and `TrimEnd`.
- DuplicateCheck.FindDuplicates: `titleCounts` is a plain `{}` object, so a title that names
  an `Object.prototype` member (`constructor`, `toString`, `__proto__`, ...) reads an inherited
  value. The count then becomes a string, so `=== 2` never holds and the script never reports
  that title. The model counts every title as a fresh key, and so reports such a title once it
  occurs twice.
- The credential check and `process.exit` in the duplicate script, and its console output.
- TopSellers.FetchTopSellers: the `.in("id", ids)` query is modelled as a filter of the
  products table in its stored order, and the fallback query as the products newest first. The
  database's own row order is a parameter, not modelled.
