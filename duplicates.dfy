/** The maintenance script that reports products sharing a title and the categories present,
    after loading `KEY=VALUE` lines from a `.env` file into the environment. */
module DuplicateCheck {
  import opened Common
  import opened Seqs

  /** A row of `select('id, title, seller_id, category')`. */
  datatype Row = Row(id: ProductId, title: string, sellerId: string, category: string)

  function Titles(rows: seq<Row>): (r: seq<string>)
    ensures |r| == |rows|
    ensures forall k :: 0 <= k < |r| ==> r[k] == rows[k].title
  {
    seq(|rows|, k requires 0 <= k < |rows| => rows[k].title)
  }

  // ---------------------------------------------------------------------------------------
  // Duplicate titles

  /** The elements of `s` in the order in which each is seen for the second time. */
  function SecondOccurrences<T(==)>(s: seq<T>): seq<T>
  {
    if s == [] then []
    else
      var init := s[..|s| - 1];
      var x := s[|s| - 1];
      if CountOr0(Tally(init), x) == 1 then SecondOccurrences(init) + [x] else SecondOccurrences(init)
  }

  /** One more step of the loop: a value is appended when its count becomes 2. */
  lemma SecondOccurrencesSnoc<T>(s: seq<T>, x: T)
    ensures SecondOccurrences(s + [x]) ==
      if CountOr0(Tally(s), x) == 1 then SecondOccurrences(s) + [x] else SecondOccurrences(s)
  {
    assert (s + [x])[..|s|] == s;
  }

  /** A value is listed exactly when it occurs at least twice, and it is listed once. */
  lemma {:induction false} SecondOccurrencesSpec<T>(s: seq<T>)
    ensures forall x :: x in SecondOccurrences(s) <==> multiset(s)[x] >= 2
    ensures Distinct(SecondOccurrences(s))
    decreases |s|
  {
    if s != [] {
      var init := s[..|s| - 1];
      var x := s[|s| - 1];
      var prev := SecondOccurrences(init);
      SecondOccurrencesSpec(init);
      assert s == init + [x];
      assert multiset(s) == multiset(init) + multiset{x};
      TallyCountsOccurrences(init, x);
      if multiset(init)[x] == 1 {
        assert x !in prev;
        var r := prev + [x];
        forall i, j | 0 <= i < j < |r| ensures r[i] != r[j] {
          if j == |prev| {
            assert r[i] == prev[i];
          } else {
            assert r[i] == prev[i] && r[j] == prev[j];
          }
        }
      }
    }
  }

  /** The counting loop: `titleCounts[key] = (titleCounts[key] || 0) + 1`, and a title is pushed
      on `duplicates` when its count has just become 2. */
  method FindDuplicates(rows: seq<Row>) returns (titleCounts: map<string, nat>, duplicates: seq<string>)
    ensures titleCounts == Tally(Titles(rows))
    ensures duplicates == SecondOccurrences(Titles(rows))
  {
    var titles := Titles(rows);
    titleCounts, duplicates := map[], [];
    var i := 0;
    while i < |rows|
      invariant 0 <= i <= |rows|
      invariant titleCounts == Tally(titles[..i])
      invariant duplicates == SecondOccurrences(titles[..i])
    {
      var key := rows[i].title;
      var seen := titles[..i];
      assert titles[..i + 1] == seen + [key];
      TallySnoc(seen, key);
      SecondOccurrencesSnoc(seen, key);
      titleCounts := titleCounts[key := CountOr0(titleCounts, key) + 1];
      if titleCounts[key] == 2 {
        duplicates := duplicates + [key];
      }
      i := i + 1;
    }
    assert titles[..|rows|] == titles;
  }

  /** After the loop: each count is the number of rows with that title, a title is reported
      exactly when at least two rows carry it, and no title is reported twice. */
  lemma DuplicatesAreSharedTitles(rows: seq<Row>, t: string)
    ensures CountOr0(Tally(Titles(rows)), t) == multiset(Titles(rows))[t]
    ensures t in SecondOccurrences(Titles(rows)) <==> CountOr0(Tally(Titles(rows)), t) >= 2
    ensures Distinct(SecondOccurrences(Titles(rows)))
  {
    TallyCountsOccurrences(Titles(rows), t);
    SecondOccurrencesSpec(Titles(rows));
  }

  /** `[...new Set(products.map(p => p.category))]`: each category once, first seen first. */
  function Categories(rows: seq<Row>): (r: seq<string>)
    ensures Distinct(r)
    ensures forall c :: c in r <==> exists k :: 0 <= k < |rows| && rows[k].category == c
  {
    var cats := seq(|rows|, k requires 0 <= k < |rows| => rows[k].category);
    assert forall k :: 0 <= k < |rows| ==> cats[k] == rows[k].category;
    assert forall c :: c in cats <==> exists k :: 0 <= k < |rows| && rows[k].category == c by {
      forall c ensures c in cats <==> exists k :: 0 <= k < |rows| && rows[k].category == c {
        if c in cats {
          var k :| 0 <= k < |cats| && cats[k] == c;
          assert rows[k].category == c;
        }
      }
    }
    FirstOccurrences(cats)
  }

  /** What `checkDuplicates` reports. */
  datatype Outcome =
    | FetchError
    | NoProducts
    | Report(total: nat, titleCounts: map<string, nat>, duplicates: seq<string>, categories: seq<string>)

  /** `checkDuplicates`: `failed` is whether the product query returned an `error`, and `answer`
      its `data`, `None` for `null`. An error wins; a `null` or empty answer is "no products". */
  method CheckDuplicates(failed: bool, answer: Option<seq<Row>>) returns (out: Outcome)
    ensures failed ==> out == FetchError
    ensures !failed && (answer.None? || answer == Some([])) ==> out == NoProducts
    ensures !failed && answer.Some? && answer.value != [] ==>
      out == Report(|answer.value|, Tally(Titles(answer.value)), SecondOccurrences(Titles(answer.value)), Categories(answer.value))
  {
    if failed {
      return FetchError;
    }
    if answer.None? || |answer.value| == 0 {
      return NoProducts;
    }
    var rows := answer.value;
    var counts, dups := FindDuplicates(rows);
    out := Report(|rows|, counts, dups, Categories(rows));
  }

  // ---------------------------------------------------------------------------------------
  // `.env` lines

  /** `s.split(c)`: the pieces between the occurrences of `c`; there is always at least one. */
  function SplitOn(s: string, c: char): (r: seq<string>)
    ensures |r| >= 1
    decreases |s|
  {
    if s == [] then [[]]
    else
      var rest := SplitOn(s[1..], c);
      if s[0] == c then [[]] + rest else [[s[0]] + rest[0]] + rest[1..]
  }

  /** The pieces glued back together with `c` between them. */
  function Join(parts: seq<string>, c: char): string
    requires |parts| >= 1
    decreases |parts|
  {
    if |parts| == 1 then parts[0] else parts[0] + [c] + Join(parts[1..], c)
  }

  /** Splitting loses nothing: joining the pieces gives the text back, and no piece holds `c`. */
  lemma {:induction false} SplitJoin(s: string, c: char)
    ensures Join(SplitOn(s, c), c) == s
    ensures forall k :: 0 <= k < |SplitOn(s, c)| ==> c !in SplitOn(s, c)[k]
    decreases |s|
  {
    if s != [] {
      var rest := SplitOn(s[1..], c);
      SplitJoin(s[1..], c);
      if s[0] == c {
        assert SplitOn(s, c)[1..] == rest;
      } else {
        var r := SplitOn(s, c);
        assert r[0] == [s[0]] + rest[0];
        if |rest| == 1 {
          assert Join(r, c) == r[0];
        } else {
          assert r[1..] == rest[1..];
          assert Join(rest, c) == rest[0] + [c] + Join(rest[1..], c);
        }
        forall k | 0 <= k < |r| ensures c !in r[k] {
          if k > 0 {
            assert r[k] == rest[k];
          }
        }
      }
    }
  }

  /** The text before the first `c`, or all of it. */
  function Before(s: string, c: char): string
    decreases |s|
  {
    if s == [] || s[0] == c then [] else [s[0]] + Before(s[1..], c)
  }

  /** The text after the first `c`, or nothing. */
  function After(s: string, c: char): string
    decreases |s|
  {
    if s == [] then [] else if s[0] == c then s[1..] else After(s[1..], c)
  }

  /** Where `c` occurs, the text is what comes before its first occurrence, the `c`, and what
      comes after. */
  lemma {:induction false} BeforeAfter(s: string, c: char)
    ensures c !in Before(s, c)
    ensures c in s ==> s == Before(s, c) + [c] + After(s, c)
    ensures c !in s ==> Before(s, c) == s
    decreases |s|
  {
    if s != [] && s[0] != c {
      BeforeAfter(s[1..], c);
      assert s == [s[0]] + s[1..];
    }
  }

  /** The first piece is the text before the first `c`; after it come the pieces of the rest. */
  lemma {:induction false} SplitFirst(s: string, c: char)
    ensures SplitOn(s, c)[0] == Before(s, c)
    ensures c in s ==> SplitOn(s, c)[1..] == SplitOn(After(s, c), c)
    ensures c !in s ==> |SplitOn(s, c)| == 1
    decreases |s|
  {
    if s != [] && s[0] != c {
      SplitFirst(s[1..], c);
    }
  }

  /** JavaScript `trim` over the ASCII white space. */
  predicate IsSpace(ch: char)
  {
    ch == ' ' || ch == '\t' || ch == '\n' || ch == '\r' || ch == '\U{000B}' || ch == '\U{000C}'
  }

  function TrimStart(s: string): (r: string)
    ensures r == [] || !IsSpace(r[0])
    ensures exists k :: 0 <= k <= |s| && r == s[k..] && forall j :: 0 <= j < k ==> IsSpace(s[j])
    decreases |s|
  {
    if s != [] && IsSpace(s[0]) then
      var r := TrimStart(s[1..]);
      var k :| 0 <= k <= |s[1..]| && r == s[1..][k..] && forall j :: 0 <= j < k ==> IsSpace(s[1..][j]);
      assert r == s[k + 1..];
      r
    else
      assert s == s[0..];
      s
  }

  function TrimEnd(s: string): (r: string)
    ensures r == [] || !IsSpace(r[|r| - 1])
    ensures exists k :: 0 <= k <= |s| && r == s[..k] && forall j :: k <= j < |s| ==> IsSpace(s[j])
    decreases |s|
  {
    if s != [] && IsSpace(s[|s| - 1]) then
      var init := s[..|s| - 1];
      var r := TrimEnd(init);
      var k :| 0 <= k <= |init| && r == init[..k] && forall j :: k <= j < |init| ==> IsSpace(init[j]);
      assert r == s[..k];
      r
    else
      assert s == s[..|s|];
      s
  }

  function Trim(s: string): (r: string)
    ensures r == [] || (!IsSpace(r[0]) && !IsSpace(r[|r| - 1]))
  {
    var t := TrimStart(s);
    var r := TrimEnd(t);
    assert r != [] ==> r[0] == t[0];
    r
  }

  /** One line of the file: `const [key, value] = line.split('=')`; the line counts when both the
      untrimmed first and second pieces are non-empty, and then the trimmed pair is stored. */
  function ParseLine(line: string): Option<(string, string)>
  {
    var parts := SplitOn(line, '=');
    if |parts| >= 2 && parts[0] != [] && parts[1] != [] then Some((Trim(parts[0]), Trim(parts[1])))
    else None
  }

  /** The key is the trimmed text before the first `=` and the value the trimmed text between the
      first and the second `=`; a line without `=`, or with nothing before it or between the
      first two, is skipped. */
  lemma ParseLineSpec(line: string)
    ensures ParseLine(line) ==
      var key := Before(line, '=');
      var value := Before(After(line, '='), '=');
      if '=' in line && key != [] && value != [] then Some((Trim(key), Trim(value))) else None
  {
    SplitFirst(line, '=');
    if '=' in line {
      SplitFirst(After(line, '='), '=');
    }
  }

  /** Each line of the file, parsed. */
  function Entries(lines: seq<string>): (r: seq<Option<(string, string)>>)
    ensures |r| == |lines|
    ensures forall k :: 0 <= k < |r| ==> r[k] == ParseLine(lines[k])
  {
    seq(|lines|, k requires 0 <= k < |lines| => ParseLine(lines[k]))
  }

  /** The environment after the parsed lines, in order, each pair setting its key. */
  function ApplyEntries(env: map<string, string>, entries: seq<Option<(string, string)>>): map<string, string>
  {
    if entries == [] then env
    else
      var e := ApplyEntries(env, entries[..|entries| - 1]);
      var last := entries[|entries| - 1];
      if last.Some? then e[last.value.0 := last.value.1] else e
  }

  /** One more line. */
  lemma ApplyEntriesSnoc(env: map<string, string>, entries: seq<Option<(string, string)>>, last: Option<(string, string)>)
    ensures ApplyEntries(env, entries + [last]) ==
      var e := ApplyEntries(env, entries); if last.Some? then e[last.value.0 := last.value.1] else e
  {
    assert (entries + [last])[..|entries|] == entries;
  }

  predicate SetsKey(entry: Option<(string, string)>, k: string)
  {
    entry.Some? && entry.value.0 == k
  }

  /** A key that no line sets keeps its old value, or stays unset. */
  lemma {:induction false} UnsetKeyKept(env: map<string, string>, entries: seq<Option<(string, string)>>, k: string)
    requires forall j :: 0 <= j < |entries| ==> !SetsKey(entries[j], k)
    ensures k in ApplyEntries(env, entries) <==> k in env
    ensures k in env ==> ApplyEntries(env, entries)[k] == env[k]
    decreases |entries|
  {
    if entries != [] {
      var init := entries[..|entries| - 1];
      assert forall j :: 0 <= j < |init| ==> init[j] == entries[j];
      UnsetKeyKept(env, init, k);
      assert !SetsKey(entries[|entries| - 1], k);
    }
  }

  /** A key ends with the value of the last line that sets it. */
  lemma {:induction false} LastLineWins(env: map<string, string>, entries: seq<Option<(string, string)>>, k: string, j: nat)
    requires j < |entries| && SetsKey(entries[j], k)
    requires forall i :: j < i < |entries| ==> !SetsKey(entries[i], k)
    ensures k in ApplyEntries(env, entries) && ApplyEntries(env, entries)[k] == entries[j].value.1
    decreases |entries|
  {
    var init := entries[..|entries| - 1];
    if j < |entries| - 1 {
      assert forall i :: 0 <= i < |init| ==> init[i] == entries[i];
      LastLineWins(env, init, k, j);
      assert !SetsKey(entries[|entries| - 1], k);
    }
  }

  /** The `.env` loop: each line of the file, when it parses, writes its key. */
  method LoadEnv(content: string, env: map<string, string>) returns (out: map<string, string>)
    ensures out == ApplyEntries(env, Entries(SplitOn(content, '\n')))
  {
    var lines := SplitOn(content, '\n');
    var entries := Entries(lines);
    out := env;
    var i := 0;
    while i < |entries|
      invariant 0 <= i <= |entries|
      invariant out == ApplyEntries(env, entries[..i])
    {
      var parsed := entries[i];
      assert entries[..i + 1] == entries[..i] + [parsed];
      ApplyEntriesSnoc(env, entries[..i], parsed);
      if parsed.Some? {
        out := out[parsed.value.0 := parsed.value.1];
      }
      i := i + 1;
    }
    assert entries[..|entries|] == entries;
  }
}
