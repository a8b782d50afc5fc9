/** The home page's product filter: a text search over title, brand and description, a
    category choice and a price band, applied one after the other to the catalogue. */
module HomeFilter {
  import opened Common
  import opened Seqs

  /** `toLowerCase` on the ASCII letters; other characters are kept as they are. */
  function LowerChar(c: char): char
  {
    if 'A' <= c <= 'Z' then (c as int + 32) as char else c
  }

  function Lower(s: string): (r: string)
    ensures |r| == |s|
    ensures forall k :: 0 <= k < |s| ==> r[k] == LowerChar(s[k])
  {
    seq(|s|, k requires 0 <= k < |s| => LowerChar(s[k]))
  }

  /** `hay.includes(needle)`: `needle` occurs in `hay` at some position. */
  predicate Includes(hay: string, needle: string)
    decreases |hay|
  {
    needle <= hay || (hay != [] && Includes(hay[1..], needle))
  }

  /** `Includes` finds exactly the positions where `needle` starts. */
  lemma {:induction false} IncludesAt(hay: string, needle: string)
    ensures Includes(hay, needle) <==>
      exists i :: 0 <= i <= |hay| - |needle| && hay[i..][..|needle|] == needle
    decreases |hay|
  {
    if needle <= hay {
      assert hay[0..][..|needle|] == needle;
    } else if hay == [] {
    } else {
      IncludesAt(hay[1..], needle);
      if Includes(hay[1..], needle) {
        var i :| 0 <= i <= |hay[1..]| - |needle| && hay[1..][i..][..|needle|] == needle;
        assert hay[i + 1..] == hay[1..][i..];
      } else {
        forall i | 0 <= i <= |hay| - |needle| ensures hay[i..][..|needle|] != needle {
          if i == 0 {
            assert hay[0..] == hay;
          } else {
            assert hay[i..] == hay[1..][i - 1..];
          }
        }
      }
    }
  }

  /** The search test: the lower-cased query occurs in the lower-cased title, or in the brand
      or the description when the product has one. */
  predicate MatchesSearch(p: Product, query: string)
  {
    var q := Lower(query);
    Includes(Lower(p.title), q)
    || (p.brand.Some? && Includes(Lower(p.brand.value), q))
    || (p.description.Some? && Includes(Lower(p.description.value), q))
  }

  /** The category test: equal once both sides are lower-cased. */
  predicate InCategory(p: Product, category: string)
  {
    Lower(p.category) == Lower(category)
  }

  /** The price-band test on the list price; a band name that is not one of the three keeps
      every product. */
  predicate InPriceBand(price: real, band: string)
  {
    if band == "under50" then price < 50.0
    else if band == "50to100" then 50.0 <= price <= 100.0
    else if band == "over100" then price > 100.0
    else true
  }

  /** `filterProducts`: each of the three filters runs only when its control is away from its
      default (`""`, `"All"`, `"all"`). */
  function FilterProducts(products: seq<Product>, query: string, category: string, band: string): seq<Product>
  {
    var bySearch := if query != "" then Filter(products, (p: Product) => MatchesSearch(p, query)) else products;
    var byCategory := if category != "All" then Filter(bySearch, (p: Product) => InCategory(p, category)) else bySearch;
    if band != "all" then Filter(byCategory, (p: Product) => InPriceBand(p.price, band)) else byCategory
  }

  /** The single test the three filters amount to. */
  predicate Kept(p: Product, query: string, category: string, band: string)
  {
    (query == "" || MatchesSearch(p, query))
    && (category == "All" || InCategory(p, category))
    && (band == "all" || InPriceBand(p.price, band))
  }

  /** Running a filter only under a condition is the same as filtering by "condition off, or
      the test holds". */
  lemma GuardedFilter(s: seq<Product>, on: bool, f: Product -> bool, g: Product -> bool)
    requires forall p :: g(p) == (!on || f(p))
    ensures (if on then Filter(s, f) else s) == Filter(s, g)
  {
    if on {
      FilterSameTest(s, f, g);
    } else {
      FilterAllPass(s, g);
    }
  }

  /** The three filters in a row are one filter by `Kept`. */
  lemma FilterProductsIsOneFilter(products: seq<Product>, query: string, category: string, band: string)
    ensures FilterProducts(products, query, category, band) == Filter(products, (p: Product) => Kept(p, query, category, band))
  {
    var f1 := (p: Product) => MatchesSearch(p, query);
    var f2 := (p: Product) => InCategory(p, category);
    var f3 := (p: Product) => InPriceBand(p.price, band);
    var g1 := (p: Product) => query == "" || MatchesSearch(p, query);
    var g2 := (p: Product) => category == "All" || InCategory(p, category);
    var g3 := (p: Product) => band == "all" || InPriceBand(p.price, band);
    var g12 := (p: Product) => g1(p) && g2(p);
    var keep := (p: Product) => Kept(p, query, category, band);
    var bySearch := if query != "" then Filter(products, f1) else products;
    var byCategory := if category != "All" then Filter(bySearch, f2) else bySearch;
    GuardedFilter(products, query != "", f1, g1);
    GuardedFilter(bySearch, category != "All", f2, g2);
    GuardedFilter(byCategory, band != "all", f3, g3);
    FilterFilter(products, g1, g2, g12);
    FilterFilter(products, g12, g3, keep);
  }

  /** The filtered list keeps catalogue order, and a product is in it exactly when it is in the
      catalogue and passes all three tests. */
  lemma FilterProductsSpec(products: seq<Product>, query: string, category: string, band: string)
    ensures IsSubseq(FilterProducts(products, query, category, band), products)
    ensures forall p :: p in FilterProducts(products, query, category, band) <==>
      p in products && Kept(p, query, category, band)
  {
    var keep := (p: Product) => Kept(p, query, category, band);
    FilterProductsIsOneFilter(products, query, category, band);
    FilterIsSubseq(products, keep);
    forall p ensures p in Filter(products, keep) <==> p in products && Kept(p, query, category, band) {
      FilterMembers(products, keep, p);
    }
  }

  /** With every control at its default the whole catalogue is shown. */
  lemma DefaultsShowEverything(products: seq<Product>)
    ensures FilterProducts(products, "", "All", "all") == products
  {
  }

  /** With a category chosen, every product shown is in that category, whatever the case of
      its letters. */
  lemma ShownAreInCategory(products: seq<Product>, query: string, category: string, band: string)
    requires category != "All"
    ensures forall p :: p in FilterProducts(products, query, category, band) ==> Lower(p.category) == Lower(category)
  {
    FilterProductsSpec(products, query, category, band);
  }

  /** The three named bands split the prices: each price is in exactly one of them. */
  lemma BandsPartition(price: real)
    ensures InPriceBand(price, "under50") || InPriceBand(price, "50to100") || InPriceBand(price, "over100")
    ensures !(InPriceBand(price, "under50") && InPriceBand(price, "50to100"))
    ensures !(InPriceBand(price, "50to100") && InPriceBand(price, "over100"))
    ensures !(InPriceBand(price, "under50") && InPriceBand(price, "over100"))
  {
  }

  /** The band looks at the list price only, and neither the search nor the category look at
      prices: a sale price never moves a product into or out of the output, whatever the
      controls. */
  lemma BandIgnoresSalePrice(products: seq<Product>, p: Product, sale: Option<real>, query: string, category: string, band: string)
    requires p in products && p.(salePrice := sale) in products
    ensures p in FilterProducts(products, query, category, band) <==>
      p.(salePrice := sale) in FilterProducts(products, query, category, band)
  {
    FilterProductsSpec(products, query, category, band);
  }

  /** Filtering what is already filtered with the same controls changes nothing. */
  lemma FilterProductsIdempotent(products: seq<Product>, query: string, category: string, band: string)
    ensures FilterProducts(FilterProducts(products, query, category, band), query, category, band)
      == FilterProducts(products, query, category, band)
  {
    var keep := (p: Product) => Kept(p, query, category, band);
    var once := FilterProducts(products, query, category, band);
    FilterProductsIsOneFilter(products, query, category, band);
    FilterProductsIsOneFilter(once, query, category, band);
    forall k | 0 <= k < |once| ensures keep(once[k]) {
      FilterMembers(products, keep, once[k]);
    }
    FilterAllPass(once, keep);
  }
}
