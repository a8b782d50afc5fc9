/** List algorithms the components build on: `Array.prototype.filter`, `slice(0, k)`, counting
    occurrences into a dictionary, the insertion-ordered keys of such a dictionary (also the order
    of `[...new Set(xs)]`), and the stable descending sort done by `Array.prototype.sort` with a
    `(a, b) => key(b) - key(a)` comparator. */
module Seqs {

  predicate Distinct<T(==)>(s: seq<T>)
  {
    forall i, j :: 0 <= i < j < |s| ==> s[i] != s[j]
  }

  /** `s.slice(0, k)`. */
  function Take<T>(s: seq<T>, k: nat): (r: seq<T>)
    ensures |r| == if k <= |s| then k else |s|
    ensures r == s[..|r|]
  {
    if k <= |s| then s[..k] else s
  }

  /** `s.filter(f)`: the elements that satisfy `f`, in their original order. */
  function Filter<T>(s: seq<T>, f: T -> bool): (r: seq<T>)
    ensures |r| <= |s|
  {
    if s == [] then [] else (if f(s[0]) then [s[0]] else []) + Filter(s[1..], f)
  }

  /** The filtered list holds exactly the elements that pass. */
  lemma {:induction false} FilterMembers<T>(s: seq<T>, f: T -> bool, x: T)
    ensures x in Filter(s, f) <==> x in s && f(x)
    decreases |s|
  {
    if s != [] {
      FilterMembers(s[1..], f, x);
      assert s == [s[0]] + s[1..];
    }
  }

  /** A passing element is kept as often as it occurs, and a failing one never. */
  lemma {:induction false} FilterCounts<T>(s: seq<T>, f: T -> bool, x: T)
    ensures multiset(Filter(s, f))[x] == if f(x) then multiset(s)[x] else 0
    decreases |s|
  {
    if s != [] {
      FilterCounts(s[1..], f, x);
      assert s == [s[0]] + s[1..];
    }
  }

  /** `a` is `b` with some elements left out (order kept). */
  predicate IsSubseq<T(==)>(a: seq<T>, b: seq<T>)
    decreases |b|
  {
    if b == [] then a == []
    else (a != [] && a[0] == b[0] && IsSubseq(a[1..], b[1..])) || IsSubseq(a, b[1..])
  }

  lemma {:induction false} EmptyIsSubseq<T>(b: seq<T>)
    ensures IsSubseq([], b)
    decreases |b|
  {
    if b != [] {
      EmptyIsSubseq(b[1..]);
    }
  }

  lemma {:induction false} SubseqReflexive<T>(s: seq<T>)
    ensures IsSubseq(s, s)
    decreases |s|
  {
    if s != [] {
      SubseqReflexive(s[1..]);
    }
  }

  lemma {:induction false} SubseqTransitive<T>(a: seq<T>, b: seq<T>, c: seq<T>)
    requires IsSubseq(a, b) && IsSubseq(b, c)
    ensures IsSubseq(a, c)
    decreases |c|
  {
    if a == [] {
      EmptyIsSubseq(c);
    } else if c == [] {
    } else if b != [] && b[0] == c[0] && IsSubseq(b[1..], c[1..]) {
      if a[0] == b[0] && IsSubseq(a[1..], b[1..]) {
        SubseqTransitive(a[1..], b[1..], c[1..]);
      } else {
        SubseqTransitive(a, b[1..], c[1..]);
      }
    } else {
      SubseqTransitive(a, b, c[1..]);
    }
  }

  /** A subsequence keeps the elements of its super-sequence and is no longer. */
  lemma {:induction false} SubseqElements<T>(a: seq<T>, b: seq<T>)
    requires IsSubseq(a, b)
    ensures |a| <= |b|
    ensures forall x :: x in a ==> x in b
    decreases |b|
  {
    if b != [] {
      if a != [] && a[0] == b[0] && IsSubseq(a[1..], b[1..]) {
        SubseqElements(a[1..], b[1..]);
        assert forall x :: x in a ==> x == a[0] || x in a[1..];
      } else {
        SubseqElements(a, b[1..]);
      }
    }
  }

  /** `.slice(0, k)` keeps a prefix, so its result is a subsequence of what it cuts. */
  lemma {:induction false} TakeIsSubseq<T>(s: seq<T>, k: nat)
    ensures IsSubseq(Take(s, k), s)
    decreases |s|
  {
    if s != [] {
      if k == 0 {
        EmptyIsSubseq(s);
      } else {
        TakeIsSubseq(s[1..], k - 1);
        assert Take(s, k)[1..] == Take(s[1..], k - 1);
      }
    }
  }

  /** `s.map(g)`. */
  function Project<T, U>(s: seq<T>, g: T -> U): (r: seq<U>)
    ensures |r| == |s|
    ensures forall k :: 0 <= k < |s| ==> r[k] == g(s[k])
  {
    seq(|s|, k requires 0 <= k < |s| => g(s[k]))
  }

  /** Mapping both sides keeps the subsequence relation. */
  lemma {:induction false} SubseqProject<T, U>(a: seq<T>, b: seq<T>, g: T -> U)
    requires IsSubseq(a, b)
    ensures IsSubseq(Project(a, g), Project(b, g))
    decreases |b|
  {
    if b != [] {
      assert Project(b, g)[1..] == Project(b[1..], g);
      if a != [] && a[0] == b[0] && IsSubseq(a[1..], b[1..]) {
        SubseqProject(a[1..], b[1..], g);
        assert Project(a, g)[1..] == Project(a[1..], g);
      } else {
        SubseqProject(a, b[1..], g);
      }
    }
  }

  /** A subsequence of a list without repeats has no repeats. */
  lemma {:induction false} SubseqKeepsDistinct<T>(a: seq<T>, b: seq<T>)
    requires IsSubseq(a, b) && Distinct(b)
    ensures Distinct(a)
    decreases |b|
  {
    if b != [] {
      var tail := b[1..];
      assert Distinct(tail) by {
        forall i, j | 0 <= i < j < |tail| ensures tail[i] != tail[j] {
          assert b[i + 1] != b[j + 1];
        }
      }
      if a != [] && a[0] == b[0] && IsSubseq(a[1..], tail) {
        SubseqKeepsDistinct(a[1..], tail);
        SubseqElements(a[1..], tail);
        HeadNotInTail(b);
        forall i, j | 0 <= i < j < |a| ensures a[i] != a[j] {
          assert a[j] == a[1..][j - 1];
          if i > 0 {
            assert a[i] == a[1..][i - 1];
          }
        }
      } else {
        SubseqKeepsDistinct(a, tail);
      }
    }
  }

  lemma {:induction false} FilterIsSubseq<T>(s: seq<T>, f: T -> bool)
    ensures IsSubseq(Filter(s, f), s)
    decreases |s|
  {
    if s != [] {
      FilterIsSubseq(s[1..], f);
      if f(s[0]) {
        assert Filter(s, f) == [s[0]] + Filter(s[1..], f);
        assert Filter(s, f)[1..] == Filter(s[1..], f);
      } else {
        assert Filter(s, f) == Filter(s[1..], f);
      }
    }
  }

  /** Filtering a list whose every element already passes leaves it unchanged. */
  lemma {:induction false} FilterAllPass<T>(s: seq<T>, f: T -> bool)
    requires forall i :: 0 <= i < |s| ==> f(s[i])
    ensures Filter(s, f) == s
    decreases |s|
  {
    if s != [] {
      FilterAllPass(s[1..], f);
    }
  }

  /** Two filters in a row are one filter by the conjunction of their tests. */
  lemma {:induction false} FilterFilter<T>(s: seq<T>, f: T -> bool, g: T -> bool, h: T -> bool)
    requires forall x :: h(x) == (f(x) && g(x))
    ensures Filter(Filter(s, f), g) == Filter(s, h)
    decreases |s|
  {
    if s != [] {
      FilterFilter(s[1..], f, g, h);
      var rest := Filter(s[1..], f);
      if f(s[0]) {
        assert Filter(s, f) == [s[0]] + rest;
        assert ([s[0]] + rest)[1..] == rest;
      } else {
        assert Filter(s, f) == rest;
      }
    }
  }

  lemma {:induction false} FilterConcat<T>(a: seq<T>, b: seq<T>, f: T -> bool)
    ensures Filter(a + b, f) == Filter(a, f) + Filter(b, f)
    decreases |a|
  {
    if a != [] {
      FilterConcat(a[1..], b, f);
      assert (a + b)[1..] == a[1..] + b;
    } else {
      assert a + b == b;
    }
  }

  /** Filtering out the one failing element between two passing runs cuts out just it. */
  lemma FilterCutsOne<T>(a: seq<T>, x: T, b: seq<T>, f: T -> bool)
    requires forall i :: 0 <= i < |a| ==> f(a[i])
    requires forall i :: 0 <= i < |b| ==> f(b[i])
    requires !f(x)
    ensures Filter(a + [x] + b, f) == a + b
  {
    assert Filter([x], f) == [] by {
      assert [x][1..] == [];
    }
    FilterConcat(a, [x], f);
    FilterAllPass(a, f);
    assert Filter(a + [x], f) == a;
    FilterConcat(a + [x], b, f);
    FilterAllPass(b, f);
  }

  /** Filters by tests that agree everywhere give the same list. */
  lemma {:induction false} FilterSameTest<T>(s: seq<T>, f: T -> bool, g: T -> bool)
    requires forall x :: f(x) == g(x)
    ensures Filter(s, f) == Filter(s, g)
    decreases |s|
  {
    if s != [] {
      FilterSameTest(s[1..], f, g);
    }
  }

  // ---------------------------------------------------------------------------------------
  // Counting into a dictionary (`counts[k] = (counts[k] || 0) + 1` over a list).

  /** The dictionary a counting loop `m[x] = (m[x] || 0) + 1` over `s` ends with. */
  function Tally<T(==)>(s: seq<T>): map<T, nat>
  {
    if s == [] then map[]
    else
      var m := Tally(s[..|s| - 1]);
      var x := s[|s| - 1];
      m[x := CountOr0(m, x) + 1]
  }

  function CountOr0<T(==)>(m: map<T, nat>, x: T): nat
  {
    if x in m then m[x] else 0
  }

  /** One more step of the counting loop. */
  lemma TallySnoc<T>(s: seq<T>, x: T)
    ensures Tally(s + [x]) == Tally(s)[x := CountOr0(Tally(s), x) + 1]
  {
    assert (s + [x])[..|s|] == s;
  }

  /** The count of `x` is its number of occurrences in `s`, and exactly the elements of `s` are
      keys. */
  lemma {:induction false} TallyCountsOccurrences<T>(s: seq<T>, x: T)
    ensures CountOr0(Tally(s), x) == multiset(s)[x]
    ensures x in Tally(s) <==> x in s
    decreases |s|
  {
    if s != [] {
      var init := s[..|s| - 1];
      TallyCountsOccurrences(init, x);
      assert s == init + [s[|s| - 1]];
      assert multiset(s) == multiset(init) + multiset{s[|s| - 1]};
    }
  }

  // ---------------------------------------------------------------------------------------
  // First occurrences: the key order of a dictionary filled by such a loop (a JavaScript
  // object keeps string keys in insertion order), and the order of `[...new Set(s)]`.

  function FirstOccurrences<T(==,!new)>(s: seq<T>): (r: seq<T>)
    ensures Distinct(r)
    ensures forall x :: x in r <==> x in s
  {
    if s == [] then []
    else
      var p := FirstOccurrences(s[..|s| - 1]);
      var x := s[|s| - 1];
      assert s == s[..|s| - 1] + [x];
      if x in p then p else p + [x]
  }

  /** One more element: it is appended unless it was seen before. */
  lemma FirstOccurrencesSnoc<T(!new)>(s: seq<T>, x: T)
    ensures FirstOccurrences(s + [x]) == if x in s then FirstOccurrences(s) else FirstOccurrences(s) + [x]
  {
    assert (s + [x])[..|s|] == s;
  }

  // ---------------------------------------------------------------------------------------
  // Stable sort, largest key first.

  predicate NonIncreasing<T>(s: seq<T>, key: T -> int)
  {
    forall i, j :: 0 <= i < j < |s| ==> key(s[i]) >= key(s[j])
  }

  /** Puts `x` in front of the first element whose key is not larger than its own. */
  function InsertDesc<T>(x: T, s: seq<T>, key: T -> int): (r: seq<T>)
    ensures multiset(r) == multiset(s) + multiset{x}
    ensures |r| == |s| + 1
    decreases |s|
  {
    if s == [] || key(s[0]) <= key(x) then [x] + s
    else
      assert s == [s[0]] + s[1..];
      [s[0]] + InsertDesc(x, s[1..], key)
  }

  predicate Bounded<T>(s: seq<T>, key: T -> int, b: int)
  {
    forall i :: 0 <= i < |s| ==> key(s[i]) <= b
  }

  /** Inserting keeps every key under a bound that `x` and `s` are under. */
  lemma {:induction false} InsertBounded<T>(x: T, s: seq<T>, key: T -> int, b: int)
    requires Bounded(s, key, b) && key(x) <= b
    ensures Bounded(InsertDesc(x, s, key), key, b)
    decreases |s|
  {
    if s != [] && key(s[0]) > key(x) {
      InsertBounded(x, s[1..], key, b);
      var t := InsertDesc(x, s[1..], key);
      assert InsertDesc(x, s, key) == [s[0]] + t;
    }
  }

  /** Inserting into a list in non-increasing order keeps it in that order. */
  lemma {:induction false} InsertSorted<T>(x: T, s: seq<T>, key: T -> int)
    requires NonIncreasing(s, key)
    ensures NonIncreasing(InsertDesc(x, s, key), key)
    decreases |s|
  {
    if s != [] && key(s[0]) > key(x) {
      var tail := s[1..];
      InsertSorted(x, tail, key);
      assert Bounded(tail, key, key(s[0])) by {
        forall i | 0 <= i < |tail| ensures key(tail[i]) <= key(s[0]) {
          assert tail[i] == s[i + 1];
        }
      }
      InsertBounded(x, tail, key, key(s[0]));
      var t := InsertDesc(x, tail, key);
      var r := [s[0]] + t;
      assert InsertDesc(x, s, key) == r;
      forall i, j | 0 <= i < j < |r| ensures key(r[i]) >= key(r[j]) {
        assert r[j] == t[j - 1];
        if i > 0 {
          assert r[i] == t[i - 1];
        }
      }
    } else if s != [] {
      var r := [x] + s;
      forall i, j | 0 <= i < j < |r| ensures key(r[i]) >= key(r[j]) {
        assert r[j] == s[j - 1];
        if i > 0 {
          assert r[i] == s[i - 1];
        }
      }
    }
  }

  /** An insertion sort: `s[0]` goes in front of every later element with the same key, so
      elements with equal keys keep their order, as in `Array.prototype.sort`. */
  function SortDesc<T>(s: seq<T>, key: T -> int): (r: seq<T>)
    ensures multiset(r) == multiset(s)
    ensures |r| == |s|
    ensures NonIncreasing(r, key)
    decreases |s|
  {
    if s == [] then []
    else
      assert s == [s[0]] + s[1..];
      var t := SortDesc(s[1..], key);
      InsertSorted(s[0], t, key);
      InsertDesc(s[0], t, key)
  }

  lemma SameMultisetSameElements<T>(a: seq<T>, b: seq<T>)
    requires multiset(a) == multiset(b)
    ensures forall x :: x in a <==> x in b
  {
    forall x ensures x in a <==> x in b {
      assert x in a <==> x in multiset(a);
      assert x in b <==> x in multiset(b);
    }
  }

  /** Sorting a list without repeats gives a list without repeats. */
  lemma {:induction false} SortKeepsDistinct<T>(s: seq<T>, key: T -> int)
    requires Distinct(s)
    ensures Distinct(SortDesc(s, key))
    decreases |s|
  {
    if s != [] {
      var t := SortDesc(s[1..], key);
      SortKeepsDistinct(s[1..], key);
      SameMultisetSameElements(t, s[1..]);
      HeadNotInTail(s);
      InsertKeepsDistinct(s[0], t, key);
    }
  }

  lemma HeadNotInTail<T>(s: seq<T>)
    requires Distinct(s) && s != []
    ensures s[0] !in s[1..]
  {
    forall j | 0 <= j < |s| - 1 ensures s[1..][j] != s[0] {
      assert s[1..][j] == s[j + 1];
    }
  }

  lemma {:induction false} InsertKeepsDistinct<T>(x: T, s: seq<T>, key: T -> int)
    requires Distinct(s) && x !in s
    ensures Distinct(InsertDesc(x, s, key))
    decreases |s|
  {
    if s != [] && key(s[0]) > key(x) {
      InsertKeepsDistinct(x, s[1..], key);
      var t := InsertDesc(x, s[1..], key);
      SameMultisetSameElements(t, s[1..] + [x]);
      HeadNotInTail(s);
      assert s[0] !in s[1..] + [x];
      assert InsertDesc(x, s, key) == [s[0]] + t;
    }
  }

  /** A prefix of a list without repeats in non-increasing order is one as well, and its
      elements are elements of the list. */
  lemma TakeKeepsShape<T>(s: seq<T>, key: T -> int, n: nat)
    ensures Distinct(s) ==> Distinct(Take(s, n))
    ensures NonIncreasing(s, key) ==> NonIncreasing(Take(s, n), key)
    ensures forall x :: x in Take(s, n) ==> x in s
  {
    var r := Take(s, n);
    assert forall k :: 0 <= k < |r| ==> r[k] == s[k];
  }

  /** Top-k: after the sort, every element left out of the first `k` has a key no larger
      than that of any element kept. */
  lemma TopKDominates<T>(s: seq<T>, key: T -> int, k: nat, x: T, y: T)
    requires x in s && x !in Take(SortDesc(s, key), k)
    requires y in Take(SortDesc(s, key), k)
    ensures key(x) <= key(y)
  {
    var t := SortDesc(s, key);
    SameMultisetSameElements(t, s);
    var j :| 0 <= j < |t| && t[j] == x;
    var i :| 0 <= i < |Take(t, k)| && Take(t, k)[i] == y;
    assert forall m :: 0 <= m < |Take(t, k)| ==> Take(t, k)[m] == t[m];
    assert j >= |Take(t, k)|;
    assert t[i] == y;
  }
}
