/** The word-list preprocessing of make_wordlist.py: yearly counts of 1-gram rows summed per
    token, the token split from its part of speech, filters by popularity and length, the n most
    popular `(count, word)` pairs, and normalisation of the words. Rows come already parsed and
    already grouped by token. */
module Wordlist {
  import opened Wrappers
  import opened Text
  import opened Sorting

  /** One row of the corpus: `word, year, times, volumes`, with the numbers already parsed. */
  datatype Row = Row(token: string, year: int, times: int, volumes: int)

  /** The rows of one token, as `itertools.groupby` yields them. */
  datatype Group = Group(token: string, rows: seq<Row>)

  /** A `(count, word)` pair. */
  type Pair = (int, string)

  /** An optional integer option as the script tests it: None and 0 are both false. */
  predicate Given(bound: Option<int>)
  {
    bound.Some? && bound.value != 0
  }

  /** The year test of sum_counts: a false bound does not restrict. */
  predicate InWindow(year: int, minYear: Option<int>, maxYear: Option<int>)
  {
    (!Given(minYear) || year >= minYear.value) && (!Given(maxYear) || year <= maxYear.value)
  }

  /** The total that sum_counts computes: the `times` of the rows in the year window. */
  function CountInWindow(rows: seq<Row>, minYear: Option<int>, maxYear: Option<int>): int
  {
    if rows == [] then 0
    else
      var last := rows[|rows| - 1];
      CountInWindow(rows[..|rows| - 1], minYear, maxYear) + (if InWindow(last.year, minYear, maxYear) then last.times else 0)
  }

  /** sum_counts: one pass adding up the times of the rows in the window. */
  method SumCounts(rows: seq<Row>, minYear: Option<int>, maxYear: Option<int>) returns (total: int)
    ensures total == CountInWindow(rows, minYear, maxYear)
  {
    total := 0;
    for i := 0 to |rows|
      invariant total == CountInWindow(rows[..i], minYear, maxYear)
    {
      assert rows[..i + 1][..i] == rows[..i];
      if InWindow(rows[i].year, minYear, maxYear) {
        total := total + rows[i].times;
      }
    }
    assert rows[..|rows|] == rows;
  }

  /** The counts of consecutive runs of rows add up. */
  lemma {:induction false} CountConcat(a: seq<Row>, b: seq<Row>, minYear: Option<int>, maxYear: Option<int>)
    ensures CountInWindow(a + b, minYear, maxYear) == CountInWindow(a, minYear, maxYear) + CountInWindow(b, minYear, maxYear)
  {
    if b == [] {
      assert a + b == a;
    } else {
      assert (a + b)[..|a + b| - 1] == a + b[..|b| - 1];
      assert (a + b)[|a + b| - 1] == b[|b| - 1];
      CountConcat(a, b[..|b| - 1], minYear, maxYear);
    }
  }

  /** A year bound of 0 is no bound at all: it counts exactly what no bound counts. */
  lemma {:induction false} ZeroBoundIgnored(rows: seq<Row>, minYear: Option<int>, maxYear: Option<int>)
    ensures CountInWindow(rows, Some(0), maxYear) == CountInWindow(rows, None, maxYear)
    ensures CountInWindow(rows, minYear, Some(0)) == CountInWindow(rows, minYear, None)
  {
    if rows != [] {
      ZeroBoundIgnored(rows[..|rows| - 1], minYear, maxYear);
    }
  }

  /** With counts that are never negative, the windowed total lies between 0 and the total over
      every year. */
  lemma {:induction false} CountWithinTotal(rows: seq<Row>, minYear: Option<int>, maxYear: Option<int>)
    requires forall r :: r in rows ==> r.times >= 0
    ensures 0 <= CountInWindow(rows, minYear, maxYear) <= CountInWindow(rows, None, None)
  {
    if rows != [] {
      CountWithinTotal(rows[..|rows| - 1], minYear, maxYear);
    }
  }

  /** `str.partition('_')` keeping the first and last parts: the word before the first '_' and
      the part of speech after it, or the whole token and "" when there is no '_'. */
  function SplitToken(token: string): (r: (string, string))
    ensures '_' !in r.0
    ensures '_' in token ==> token == r.0 + ['_'] + r.1
    ensures '_' !in token ==> r == (token, [])
  {
    if token == [] then ([], [])
    else if token[0] == '_' then ([], token[1..])
    else
      var rest := SplitToken(token[1..]);
      assert token == [token[0]] + token[1..];
      ([token[0]] + rest.0, rest.1)
  }

  /** What get_words yields for one token: nothing when a part-of-speech filter is given and
      the token's part is not in it, or when the total is not positive. */
  function WordOf(g: Group, minYear: Option<int>, maxYear: Option<int>, pos: set<string>): Option<Pair>
  {
    var (word, part) := SplitToken(g.token);
    if pos != {} && part !in pos then None
    else
      var total := CountInWindow(g.rows, minYear, maxYear);
      if total > 0 then Some((total, word)) else None
  }

  /** Everything get_words yields, in the order of the groups. */
  function WordsOf(groups: seq<Group>, minYear: Option<int>, maxYear: Option<int>, pos: set<string>): seq<Pair>
  {
    if groups == [] then []
    else
      var w := WordOf(groups[|groups| - 1], minYear, maxYear, pos);
      WordsOf(groups[..|groups| - 1], minYear, maxYear, pos) + (if w.Some? then [w.value] else [])
  }

  /** get_words over rows already grouped by token. */
  method GetWords(groups: seq<Group>, minYear: Option<int>, maxYear: Option<int>, pos: set<string>)
    returns (words: seq<Pair>)
    ensures words == WordsOf(groups, minYear, maxYear, pos)
  {
    words := [];
    for i := 0 to |groups|
      invariant words == WordsOf(groups[..i], minYear, maxYear, pos)
    {
      assert groups[..i + 1][..i] == groups[..i];
      var (word, part) := SplitToken(groups[i].token);
      if pos != {} && part !in pos {
        continue;
      }
      var total := SumCounts(groups[i].rows, minYear, maxYear);
      if total > 0 {
        words := words + [(total, word)];
      }
    }
    assert groups[..|groups|] == groups;
  }

  /** A pair is yielded exactly when some token yields it: its word is the token's text before
      the first '_', its part of speech passes the filter, and its count is the token's positive
      total in the window. */
  lemma {:induction false} WordsOfMembers(groups: seq<Group>, minYear: Option<int>, maxYear: Option<int>,
                                          pos: set<string>, x: Pair)
    ensures x in WordsOf(groups, minYear, maxYear, pos) <==>
      exists g :: g in groups && WordOf(g, minYear, maxYear, pos) == Some(x)
    ensures x in WordsOf(groups, minYear, maxYear, pos) ==> x.0 > 0 && '_' !in x.1
  {
    if groups != [] {
      var init := groups[..|groups| - 1];
      WordsOfMembers(init, minYear, maxYear, pos, x);
      assert groups == init + [groups[|groups| - 1]];
    }
  }

  /** filter_by_count: the pairs counted at least `minPopularity` times, in order. */
  function FilterByCount(words: seq<Pair>, minPopularity: int): (r: seq<Pair>)
    ensures forall x :: x in r <==> x in words && x.0 >= minPopularity
    ensures forall x :: multiset(r)[x] == if x.0 >= minPopularity then multiset(words)[x] else 0
  {
    if words == [] then []
    else
      var last := words[|words| - 1];
      assert words == words[..|words| - 1] + [last];
      FilterByCount(words[..|words| - 1], minPopularity) + (if last.0 >= minPopularity then [last] else [])
  }

  /** The length test of filter_by_length: a false bound does not restrict. */
  predicate LengthOk(word: string, minLength: Option<int>, maxLength: Option<int>)
  {
    (!Given(minLength) || |word| >= minLength.value) && (!Given(maxLength) || |word| <= maxLength.value)
  }

  /** filter_by_length: the pairs whose word length lies within the bounds, in order. */
  function FilterByLength(words: seq<Pair>, minLength: Option<int>, maxLength: Option<int>): (r: seq<Pair>)
    ensures forall x :: x in r <==> x in words && LengthOk(x.1, minLength, maxLength)
    ensures forall x :: multiset(r)[x] == if LengthOk(x.1, minLength, maxLength) then multiset(words)[x] else 0
  {
    if words == [] then []
    else
      var last := words[|words| - 1];
      assert words == words[..|words| - 1] + [last];
      FilterByLength(words[..|words| - 1], minLength, maxLength) + (if LengthOk(last.1, minLength, maxLength) then [last] else [])
  }

  /** filter_by_count keeps the order of what it keeps. */
  lemma {:induction false} FilterByCountKeepsOrder(words: seq<Pair>, minPopularity: int)
    ensures Subsequence(FilterByCount(words, minPopularity), words)
  {
    if words != [] {
      var init := words[..|words| - 1];
      var last := words[|words| - 1];
      var kept := FilterByCount(init, minPopularity);
      assert words == init + [last];
      CountSnoc(init, last, minPopularity);
      FilterByCountKeepsOrder(init, minPopularity);
      if last.0 >= minPopularity {
        assert FilterByCount(words, minPopularity) == kept + [last];
        SubsequenceSnoc(kept, init, last);
      } else {
        assert FilterByCount(words, minPopularity) == kept;
        SubsequenceExtend(kept, init, last);
      }
    }
  }

  /** filter_by_length keeps the order of what it keeps. */
  lemma {:induction false} FilterByLengthKeepsOrder(words: seq<Pair>, minLength: Option<int>, maxLength: Option<int>)
    ensures Subsequence(FilterByLength(words, minLength, maxLength), words)
  {
    if words != [] {
      var init := words[..|words| - 1];
      var last := words[|words| - 1];
      var kept := FilterByLength(init, minLength, maxLength);
      assert words == init + [last];
      LengthSnoc(init, last, minLength, maxLength);
      FilterByLengthKeepsOrder(init, minLength, maxLength);
      if LengthOk(last.1, minLength, maxLength) {
        assert FilterByLength(words, minLength, maxLength) == kept + [last];
        SubsequenceSnoc(kept, init, last);
      } else {
        assert FilterByLength(words, minLength, maxLength) == kept;
        SubsequenceExtend(kept, init, last);
      }
    }
  }

  lemma CountSnoc(s: seq<Pair>, x: Pair, minPopularity: int)
    ensures FilterByCount(s + [x], minPopularity) ==
            FilterByCount(s, minPopularity) + (if x.0 >= minPopularity then [x] else [])
  {
    assert (s + [x])[..|s|] == s;
  }

  lemma LengthSnoc(s: seq<Pair>, x: Pair, minLength: Option<int>, maxLength: Option<int>)
    ensures FilterByLength(s + [x], minLength, maxLength) ==
            FilterByLength(s, minLength, maxLength) + (if LengthOk(x.1, minLength, maxLength) then [x] else [])
  {
    assert (s + [x])[..|s|] == s;
  }

  /** The two filters commute, so the order in which the script applies them does not matter. */
  lemma {:induction false} FiltersCommute(words: seq<Pair>, minPopularity: int, minLength: Option<int>, maxLength: Option<int>)
    ensures FilterByLength(FilterByCount(words, minPopularity), minLength, maxLength) ==
            FilterByCount(FilterByLength(words, minLength, maxLength), minPopularity)
  {
    if words != [] {
      var init := words[..|words| - 1];
      var last := words[|words| - 1];
      assert words == init + [last];
      FiltersCommute(init, minPopularity, minLength, maxLength);
      var c := FilterByCount(init, minPopularity);
      var l := FilterByLength(init, minLength, maxLength);
      CountSnoc(init, last, minPopularity);
      LengthSnoc(init, last, minLength, maxLength);
      var byCount := last.0 >= minPopularity;
      var byLength := LengthOk(last.1, minLength, maxLength);
      if byCount {
        assert FilterByCount(words, minPopularity) == c + [last];
        LengthSnoc(c, last, minLength, maxLength);
      } else {
        assert FilterByCount(words, minPopularity) == c;
      }
      if byLength {
        assert FilterByLength(words, minLength, maxLength) == l + [last];
        CountSnoc(l, last, minPopularity);
      } else {
        assert FilterByLength(words, minLength, maxLength) == l;
      }
    }
  }

  /** Python 2's `<=` on `(count, word)` pairs: by count, then by word, which is the order of
      the count followed by the word's character codes. */
  predicate PairLe(a: Pair, b: Pair)
    ensures PairLe(a, b) <==> IntsLe([a.0] + Codes(a.1), [b.0] + Codes(b.1))
  {
    assert ([a.0] + Codes(a.1))[1..] == Codes(a.1) && ([b.0] + Codes(b.1))[1..] == Codes(b.1);
    a.0 < b.0 || (a.0 == b.0 && StrLe(a.1, b.1))
  }

  /** The order of `sort(reverse=True)`: Python 2's `>=` on `(count, word)` pairs. */
  predicate PairGe(a: Pair, b: Pair)
    ensures PairGe(a, b) <==> IntsLe([b.0] + Codes(b.1), [a.0] + Codes(a.1))
  {
    PairLe(b, a)
  }

  lemma PairLeTotal(a: Pair, b: Pair)
    ensures PairLe(a, b) || PairLe(b, a)
  {
    StrLeTotal(a.1, b.1);
  }

  lemma PairLeTransitive(a: Pair, b: Pair, c: Pair)
    requires PairLe(a, b) && PairLe(b, c)
    ensures PairLe(a, c)
  {
    if a.0 == b.0 && b.0 == c.0 {
      StrLeTransitive(a.1, b.1, c.1);
    }
  }

  lemma PairOrdersAreTotalPreorders()
    ensures TotalPreorder(PairLe) && TotalPreorder(PairGe)
  {
    forall a, b
      ensures PairLe(a, b) || PairLe(b, a)
    {
      PairLeTotal(a, b);
    }
    forall a, b, c | PairLe(a, b) && PairLe(b, c)
      ensures PairLe(a, c)
    {
      PairLeTransitive(a, b, c);
    }
  }

  /** `heappush` on the heap kept as an ascending list: `x` goes in before the first larger
      element. */
  function InsertAscending(s: seq<Pair>, x: Pair): (r: seq<Pair>)
    requires SortedBy(s, PairLe)
    ensures SortedBy(r, PairLe)
    ensures multiset(r) == multiset(s) + multiset{x}
    ensures |r| == |s| + 1
  {
    if s == [] then [x]
    else if PairLe(x, s[0]) then
      PairsBelowSorted(x, s);
      [x] + s
    else
      var rest := InsertAscending(s[1..], x);
      assert s == [s[0]] + s[1..];
      PairLeTotal(x, s[0]);
      PairsBelowSorted(s[0], rest);
      [s[0]] + rest
  }

  /** A sorted list stays sorted with an element in front that is no larger than its first. */
  lemma PairsBelowSorted(x: Pair, s: seq<Pair>)
    requires SortedBy(s, PairLe)
    requires s != [] ==> PairLe(x, s[0])
    ensures SortedBy([x] + s, PairLe)
  {
    forall j | 0 <= j < |s|
      ensures PairLe(x, s[j])
    {
      if j > 0 {
        PairLeTransitive(x, s[0], s[j]);
      }
    }
  }

  function Min(a: int, b: int): int
  {
    if a < b then a else b
  }

  /** The state of most_popular after the first `|seen|` words: the heap holds `min(n, |seen|)`
      of them in ascending order, the rest were dropped, and nothing dropped is larger than
      anything kept. */
  ghost predicate Kept(seen: seq<Pair>, n: int, heap: seq<Pair>, dropped: seq<Pair>)
  {
    && SortedBy(heap, PairLe)
    && |heap| == Min(if n < 0 then 0 else n, |seen|)
    && multiset(heap) + multiset(dropped) == multiset(seen)
    && forall x, y :: x in dropped && y in heap ==> PairLe(x, y)
  }

  /** `heappush` while the heap is not full. */
  lemma PushStep(seen: seq<Pair>, n: int, heap: seq<Pair>, dropped: seq<Pair>, x: Pair)
    requires Kept(seen, n, heap, dropped) && |heap| < n
    ensures Kept(seen + [x], n, InsertAscending(heap, x), dropped)
  {
    var heap' := InsertAscending(heap, x);
    assert |heap| == |seen|;
    assert |multiset(heap) + multiset(dropped)| == |multiset(seen)|;
    assert dropped == [];
    assert multiset(seen + [x]) == multiset(seen) + multiset{x};
  }

  /** `heappushpop` of a word larger than the heap's minimum: the minimum is dropped. */
  lemma PushPopStep(seen: seq<Pair>, n: int, heap: seq<Pair>, dropped: seq<Pair>, x: Pair)
    requires Kept(seen, n, heap, dropped) && |heap| >= n && heap != []
    requires !PairLe(x, heap[0])
    ensures Kept(seen + [x], n, InsertAscending(heap[1..], x), dropped + [heap[0]])
  {
    assert heap == [heap[0]] + heap[1..];
    assert multiset(seen + [x]) == multiset(seen) + multiset{x};
    PoppedBelowKept(dropped, heap, x);
  }

  /** After `heappushpop`, the popped minimum and everything dropped before it lie below the
      heap. */
  lemma PoppedBelowKept(dropped: seq<Pair>, heap: seq<Pair>, x: Pair)
    requires SortedBy(heap, PairLe) && heap != []
    requires forall d, y :: d in dropped && y in heap ==> PairLe(d, y)
    requires !PairLe(x, heap[0])
    ensures forall d, y :: d in dropped + [heap[0]] && y in InsertAscending(heap[1..], x) ==> PairLe(d, y)
  {
    var heap' := InsertAscending(heap[1..], x);
    PairLeTotal(x, heap[0]);
    forall d, y | d in dropped + [heap[0]] && y in heap'
      ensures PairLe(d, y)
    {
      assert y in multiset(heap[1..]) + multiset{x};
      if y == x {
        if d != heap[0] {
          PairLeTransitive(d, heap[0], x);
        }
      } else {
        assert y in heap[1..];
        if d != heap[0] {
          assert PairLe(d, y);
        }
      }
    }
  }

  /** A word no larger than the heap's minimum is dropped. */
  lemma SkipStep(seen: seq<Pair>, n: int, heap: seq<Pair>, dropped: seq<Pair>, x: Pair)
    requires Kept(seen, n, heap, dropped) && |heap| >= n && heap != []
    requires PairLe(x, heap[0])
    ensures Kept(seen + [x], n, heap, dropped + [x])
  {
    forall d, y | d in dropped + [x] && y in heap
      ensures PairLe(d, y)
    {
      if d == x {
        var j :| 0 <= j < |heap| && heap[j] == y;
        if j > 0 {
          PairLeTransitive(x, heap[0], y);
        }
      }
    }
  }

  /** One turn of the loop of most_popular: push while the heap is not full, otherwise replace
      the minimum `heap[0]` when the word is strictly larger. On an empty heap that is full,
      which happens only when `n <= 0`, `heap[0]` raises IndexError. */
  method Offer(ghost seen: seq<Pair>, n: int, heap: seq<Pair>, ghost dropped: seq<Pair>, x: Pair)
    returns (r: Result<seq<Pair>>, ghost dropped': seq<Pair>)
    requires Kept(seen, n, heap, dropped)
    ensures r.Err? <==> n <= 0
    ensures r.Err? ==> r.error == IndexError
    ensures r.Ok? ==> Kept(seen + [x], n, r.value, dropped')
  {
    if |heap| < n {
      PushStep(seen, n, heap, dropped, x);
      return Ok(InsertAscending(heap, x)), dropped;
    } else if heap == [] {
      return Err(IndexError), dropped;
    } else if !PairLe(x, heap[0]) {
      PushPopStep(seen, n, heap, dropped, x);
      return Ok(InsertAscending(heap[1..], x)), dropped + [heap[0]];
    } else {
      SkipStep(seen, n, heap, dropped, x);
      return Ok(heap), dropped + [x];
    }
  }

  /** The loop of most_popular. The heap is kept as an ascending list, one of the layouts
      `heapq` allows, so `heap[0]` is its minimum. */
  method FillHeap(words: seq<Pair>, n: int) returns (r: Result<seq<Pair>>, ghost dropped: seq<Pair>)
    ensures r.Err? <==> n <= 0 && words != []
    ensures r.Err? ==> r.error == IndexError
    ensures r.Ok? ==> Kept(words, n, r.value, dropped)
  {
    var heap: seq<Pair> := [];
    dropped := [];
    for i := 0 to |words|
      invariant i > 0 ==> n >= 1
      invariant Kept(words[..i], n, heap, dropped)
    {
      assert words[..i + 1] == words[..i] + [words[i]];
      var next;
      next, dropped := Offer(words[..i], n, heap, dropped, words[i]);
      if next.Err? {
        return Err(IndexError), dropped;
      }
      heap := next.value;
    }
    assert words[..|words|] == words;
    return Ok(heap), dropped;
  }

  /** most_popular: the `n` largest pairs, largest first; nothing left out is larger than
      anything returned. */
  method MostPopular(words: seq<Pair>, n: int) returns (r: Result<seq<Pair>>)
    ensures r.Err? <==> n <= 0 && words != []
    ensures r.Err? ==> r.error == IndexError
    ensures r.Ok? ==> |r.value| == Min(n, |words|) || (n <= 0 && r.value == [])
    ensures r.Ok? ==> SortedBy(r.value, PairGe)
    ensures r.Ok? ==> multiset(r.value) <= multiset(words)
    ensures r.Ok? ==> forall x, y :: x in multiset(words) - multiset(r.value) && y in r.value ==> PairLe(x, y)
  {
    var filled, dropped := FillHeap(words, n);
    if filled.Err? {
      return Err(filled.error);
    }
    var heap := filled.value;
    var a := new Pair[|heap|](j requires 0 <= j < |heap| => heap[j]);
    assert a[..] == heap;
    PairOrdersAreTotalPreorders();
    SortInPlace(a, PairGe);
    KeptFinal(words, n, heap, dropped, a[..]);
    return Ok(a[..]);
  }

  /** The final state of most_popular, once the heap is rearranged into `out`. */
  lemma KeptFinal(words: seq<Pair>, n: int, heap: seq<Pair>, dropped: seq<Pair>, out: seq<Pair>)
    requires Kept(words, n, heap, dropped)
    requires multiset(out) == multiset(heap)
    ensures multiset(out) <= multiset(words)
    ensures forall x, y :: x in multiset(words) - multiset(out) && y in out ==> PairLe(x, y)
  {
    assert multiset(words) - multiset(out) == multiset(dropped);
    forall x, y | x in multiset(words) - multiset(out) && y in out
      ensures PairLe(x, y)
    {
      assert x in dropped;
      assert y in multiset(heap);
    }
  }

  /** The whitespace `str.strip()` removes from a byte string. */
  predicate IsSpace(c: char)
  {
    c == ' ' || c == '\t' || c == '\n' || c == '\r' || c as int == 11 || c as int == 12
  }

  /** `s` without its leading whitespace. */
  function StripStart(s: string): (r: string)
    ensures |r| <= |s| && r == s[|s| - |r|..]
    ensures r == [] || !IsSpace(r[0])
    ensures forall k :: 0 <= k < |s| - |r| ==> IsSpace(s[k])
  {
    if s == [] || !IsSpace(s[0]) then s
    else
      var r := StripStart(s[1..]);
      assert forall k :: 1 <= k < |s| - |r| ==> s[k] == s[1..][k - 1];
      r
  }

  /** `s` without its trailing whitespace. */
  function StripEnd(s: string): (r: string)
    ensures |r| <= |s| && r == s[..|r|]
    ensures r == [] || !IsSpace(r[|r| - 1])
    ensures forall k :: |r| <= k < |s| ==> IsSpace(s[k])
  {
    if s == [] || !IsSpace(s[|s| - 1]) then s
    else
      var r := StripEnd(s[..|s| - 1]);
      assert forall k :: |r| <= k < |s| - 1 ==> s[k] == s[..|s| - 1][k];
      r
  }

  /** `str.strip()`: what is left neither starts nor ends with whitespace. */
  function Strip(s: string): (r: string)
    ensures |r| <= |s|
    ensures r == [] || (!IsSpace(r[0]) && !IsSpace(r[|r| - 1]))
  {
    var e := StripEnd(s);
    var r := StripStart(e);
    assert r != [] ==> r[|r| - 1] == e[|e| - 1];
    r
  }

  /** `str.lower()` on one byte: only 'A' to 'Z' change. */
  function LowerChar(c: char): char
  {
    if 'A' <= c <= 'Z' then (c as int + 32) as char else c
  }

  /** `str.lower()`: each capital becomes its lower-case letter, every other character stays,
      and whitespace stays whitespace. */
  function Lower(s: string): (r: string)
    ensures |r| == |s|
    ensures forall k :: 0 <= k < |s| ==> !('A' <= r[k] <= 'Z')
    ensures forall k :: 0 <= k < |s| && !('A' <= s[k] <= 'Z') ==> r[k] == s[k]
    ensures forall k :: 0 <= k < |s| && 'A' <= s[k] <= 'Z' ==> r[k] as int == s[k] as int + 32
    ensures forall k :: 0 <= k < |s| ==> (IsSpace(r[k]) <==> IsSpace(s[k]))
  {
    seq(|s|, i requires 0 <= i < |s| => LowerChar(s[i]))
  }

  /** The word as normalise_words rewrites it: no capital letter and no whitespace at either
      end. */
  function Normalise(word: string): (r: string)
    ensures forall k :: 0 <= k < |r| ==> !('A' <= r[k] <= 'Z')
    ensures r == [] || (!IsSpace(r[0]) && !IsSpace(r[|r| - 1]))
  {
    Lower(Strip(word))
  }

  /** normalise_words: each pair keeps its count and its place, and its word is normalised. */
  function NormaliseWords(words: seq<Pair>): (r: seq<Pair>)
    ensures |r| == |words|
    ensures forall i :: 0 <= i < |words| ==> r[i].0 == words[i].0 && r[i].1 == Normalise(words[i].1)
  {
    seq(|words|, i requires 0 <= i < |words| => (words[i].0, Normalise(words[i].1)))
  }

  /** Stripping removes exactly the whitespace at both ends: what is left starts and ends with
      something else, and sits inside `s` with only whitespace around it. */
  lemma StripExact(s: string)
    ensures var r := Strip(s);
      var e := |StripEnd(s)|;
      && (r == [] || (!IsSpace(r[0]) && !IsSpace(r[|r| - 1])))
      && 0 <= e - |r| && e <= |s| && s[e - |r|..e] == r
      && (forall k :: 0 <= k < e - |r| ==> IsSpace(s[k]))
      && (forall k :: e <= k < |s| ==> IsSpace(s[k]))
  {
    var e := StripEnd(s);
    var r := StripStart(e);
    assert s[|e| - |r|..|e|] == e[|e| - |r|..] == r;
    forall k | 0 <= k < |e| - |r|
      ensures IsSpace(s[k])
    {
      assert s[k] == e[k];
    }
  }

  /** A string without capital letters is its own lower case. */
  lemma LowerFixed(s: string)
    requires forall k :: 0 <= k < |s| ==> !('A' <= s[k] <= 'Z')
    ensures Lower(s) == s
  {
  }

  /** Normalising twice is normalising once. */
  lemma NormaliseIdempotent(word: string)
    ensures Normalise(Normalise(word)) == Normalise(word)
  {
    var r := Normalise(word);
    assert StripEnd(r) == r;
    assert StripStart(r) == r;
    LowerFixed(r);
  }

  /** normalise_words applied to its own output changes nothing. */
  lemma NormaliseWordsIdempotent(words: seq<Pair>)
    ensures NormaliseWords(NormaliseWords(words)) == NormaliseWords(words)
  {
    forall i | 0 <= i < |words|
      ensures NormaliseWords(NormaliseWords(words))[i] == NormaliseWords(words)[i]
    {
      NormaliseIdempotent(words[i].1);
    }
  }
}
