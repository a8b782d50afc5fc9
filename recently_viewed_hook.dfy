/** The recently-viewed hook: a most-recently-used list of product ids, at most `MaxItems`
    long, mirrored to the `stylehub_recently_viewed` key of local storage. */
module RecentlyViewedHook {
  import opened Common
  import opened Seqs

  const MaxItems: nat := 8

  /** The list after viewing `id`: `[id, ...prev.filter(x => x !== id)].slice(0, MAX_ITEMS)`. */
  function Pushed(prev: seq<ProductId>, id: ProductId): seq<ProductId>
  {
    Take([id] + Filter(prev, (x: ProductId) => x != id), MaxItems)
  }

  /** The viewed id comes first and only there, and the list never grows past `MaxItems`. */
  lemma PushedPutsIdFirstOnce(prev: seq<ProductId>, id: ProductId)
    ensures 1 <= |Pushed(prev, id)| <= MaxItems
    ensures Pushed(prev, id)[0] == id
    ensures forall k :: 1 <= k < |Pushed(prev, id)| ==> Pushed(prev, id)[k] != id
  {
    var f := (x: ProductId) => x != id;
    var rest := Filter(prev, f);
    var r := Pushed(prev, id);
    forall k | 1 <= k < |r| ensures r[k] != id {
      assert r[k] == rest[k - 1];
      FilterMembers(prev, f, rest[k - 1]);
    }
  }

  /** The rest of the new list is a prefix of the old list with `id` taken out, so the other
      ids keep their relative order. */
  lemma PushedKeepsOrder(prev: seq<ProductId>, id: ProductId)
    ensures Pushed(prev, id) == [id] + Take(Filter(prev, (x: ProductId) => x != id), MaxItems - 1)
    ensures IsSubseq(Pushed(prev, id)[1..], prev)
  {
    var f := (x: ProductId) => x != id;
    var rest := Filter(prev, f);
    var r := Pushed(prev, id);
    assert r[1..] == Take(rest, MaxItems - 1);
    FilterIsSubseq(prev, f);
    TakeIsSubseq(rest, MaxItems - 1);
    SubseqTransitive(Take(rest, MaxItems - 1), rest, prev);
  }

  /** A list without repeats stays without repeats. */
  lemma PushedKeepsDistinct(prev: seq<ProductId>, id: ProductId)
    requires Distinct(prev)
    ensures Distinct(Pushed(prev, id))
  {
    var f := (x: ProductId) => x != id;
    var rest := Filter(prev, f);
    var r := Pushed(prev, id);
    FilterIsSubseq(prev, f);
    SubseqKeepsDistinct(rest, prev);
    PushedPutsIdFirstOnce(prev, id);
    forall i, j | 0 <= i < j < |r| ensures r[i] != r[j] {
      if i > 0 {
        assert r[i] == rest[i - 1] && r[j] == rest[j - 1];
      }
    }
  }

  /** Viewing the id already at the head of a list without repeats, no longer than
      `MaxItems`, changes nothing. */
  lemma PushingHeadIsIdempotent(prev: seq<ProductId>)
    requires Distinct(prev) && 0 < |prev| <= MaxItems
    ensures Pushed(prev, prev[0]) == prev
  {
    var id := prev[0];
    var f := (x: ProductId) => x != id;
    HeadNotInTail(prev);
    assert prev == [id] + prev[1..];
    FilterConcat([id], prev[1..], f);
    assert Filter([id], f) == [] by {
      assert [id][1..] == [];
    }
    forall k | 0 <= k < |prev[1..]| ensures f(prev[1..][k]) {
      assert prev[1..][k] in prev[1..];
    }
    FilterAllPass(prev[1..], f);
  }

  class RecentlyViewed {
    var viewed: seq<ProductId>
    /** The `stylehub_recently_viewed` key of local storage. */
    var storage: Slot<seq<ProductId>>

    /** Mounting: a stored list that parses becomes the state; one that does not parse gives
        the empty list; a missing key leaves the initial empty list. */
    constructor (saved: Slot<seq<ProductId>>)
      ensures storage == saved
      ensures viewed == if saved.Holds? then saved.value else []
    {
      storage := saved;
      viewed := if saved.Holds? then saved.value else [];
    }

    /** `addToRecentlyViewed(id)`: the list moves `id` to the front and the new list is saved. */
    method Add(id: ProductId)
      modifies this
      ensures viewed == Pushed(old(viewed), id)
      ensures storage == Holds(viewed)
      ensures viewed[0] == id && |viewed| <= MaxItems
    {
      PushedPutsIdFirstOnce(viewed, id);
      viewed := Pushed(viewed, id);
      storage := Holds(viewed);
    }

    /** `clearRecentlyViewed()`: the key is removed and the list emptied. */
    method Clear()
      modifies this
      ensures viewed == [] && storage == Absent
    {
      storage := Absent;
      viewed := [];
    }
  }
}
