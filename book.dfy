/** get_entry_value and produce_book_data (hangman.py:104-169): the decision graph numbered
    into the sections of a printed book. Each section is one guess; each of its entries is one
    outcome of that guess and says where to turn next. */
module Book {
  import opened Wrappers
  import opened Patterns
  import opened Text
  import opened Sorting
  import opened GraphBuilder

  /** The value half of an entry: nothing (the word was found), the one word left to guess,
      the number of the section to turn to, or the 1-tuple holding a fully revealed pattern. */
  datatype EntryValue = NoValue | Word(word: string) | SectionRef(id: nat) | Revealed(word: string)

  /** `Entry(pattern, is_leaf, value)`; the pattern is None for the outcome that reveals nothing. */
  datatype Entry = Entry(pattern: Option<string>, isLeaf: bool, value: EntryValue)

  /** `Section(id, pattern, wrong, guess, entries)`. */
  datatype Section = Section(id: nat, pattern: string, wrong: nat, guess: string, entries: seq<Entry>)

  /** The filter of produce_book_data: guess nodes, and every node reached with no guess. */
  predicate InBook(graph: map<NodeKey, Node>, k: NodeKey)
    requires k in graph
    ensures k.numGuesses == 0 ==> InBook(graph, k)
    ensures k.numGuesses > 0 ==> (InBook(graph, k) <==> graph[k].guess != "")
  {
    graph[k].guess != "" || k.numGuesses == 0
  }

  /** The list comprehension that keeps the nodes of the book, in the order of `keys`. */
  function BookKeys(keys: seq<NodeKey>, graph: map<NodeKey, Node>): (r: seq<NodeKey>)
    requires forall k :: k in keys ==> k in graph
    ensures forall k :: k in r <==> k in keys && InBook(graph, k)
    ensures Distinct(keys) ==> Distinct(r)
  {
    if keys == [] then []
    else
      var last := keys[|keys| - 1];
      BookKeys(keys[..|keys| - 1], graph) + (if InBook(graph, last) then [last] else [])
  }

  /** The sort key of the sections: number of guesses, then pattern length. */
  predicate KeyLe(a: NodeKey, b: NodeKey)
  {
    a.numGuesses < b.numGuesses || (a.numGuesses == b.numGuesses && |a.pattern| <= |b.pattern|)
  }

  /** KeyLe is Python's `<=` on the tuples `(num_guesses, len(pattern))`. */
  lemma KeyLeIsTupleOrder(a: NodeKey, b: NodeKey)
    ensures KeyLe(a, b) <==> IntsLe([a.numGuesses, |a.pattern|], [b.numGuesses, |b.pattern|])
  {
    assert [a.numGuesses, |a.pattern|][1..] == [|a.pattern|] && [b.numGuesses, |b.pattern|][1..] == [|b.pattern|];
    assert [|a.pattern|][1..] == [] && [|b.pattern|][1..] == [];
    assert IntsLe([|a.pattern|], [|b.pattern|]) <==> |a.pattern| <= |b.pattern|;
  }

  lemma KeyOrderIsTotalPreorder()
    ensures TotalPreorder(KeyLe)
  {
  }

  /** Python's order on entries: the pattern None first, then the patterns as strings. The
      patterns of one section are distinct, so the other fields are never compared. */
  predicate EntryLe(a: Entry, b: Entry)
  {
    a.pattern.None? || (b.pattern.Some? && StrLe(a.pattern.value, b.pattern.value))
  }

  /** EntryLe puts the entry without a pattern first and orders the others by the character
      codes of their patterns, as Python compares strings. */
  lemma EntryLeIsPythonOrder(a: Entry, b: Entry)
    ensures a.pattern.None? ==> EntryLe(a, b)
    ensures a.pattern.Some? && b.pattern.None? ==> !EntryLe(a, b)
    ensures a.pattern.Some? && b.pattern.Some? ==>
      (EntryLe(a, b) <==> IntsLe(Codes(a.pattern.value), Codes(b.pattern.value)))
  {
  }

  lemma EntryOrderIsTotalPreorder()
    ensures TotalPreorder(EntryLe)
  {
    forall a: Entry, b: Entry
      ensures EntryLe(a, b) || EntryLe(b, a)
    {
      if a.pattern.Some? && b.pattern.Some? {
        StrLeTotal(a.pattern.value, b.pattern.value);
      }
    }
    forall a: Entry, b: Entry, c: Entry | EntryLe(a, b) && EntryLe(b, c)
      ensures EntryLe(a, c)
    {
      if a.pattern.Some? {
        StrLeTransitive(a.pattern.value, b.pattern.value, c.pattern.value);
      }
    }
  }

  /** `node_map`: each node of the numbered list to its 1-based position. */
  function Number(order: seq<NodeKey>): (m: map<NodeKey, nat>)
    ensures forall k :: k in m <==> k in order
  {
    if order == [] then map[]
    else Number(order[..|order| - 1])[order[|order| - 1] := |order|]
  }

  /** Without repeats, every node is numbered by its position. */
  lemma {:induction false} NumberPositions(order: seq<NodeKey>)
    requires Distinct(order)
    ensures forall i :: 0 <= i < |order| ==> Number(order)[order[i]] == i + 1
  {
    if order != [] {
      var init := order[..|order| - 1];
      NumberPositions(init);
      forall i | 0 <= i < |order| - 1
        ensures Number(order)[order[i]] == i + 1
      {
        assert order[i] == init[i];
      }
    }
  }

  /** get_entry_value. Its first branch tests a NodeKey, a two-field tuple, for falsehood and is
      never taken. A leaf gives `(True, None)` or `(True, patterns[0])`; a guess node gives
      `(False, section number)`; a key missing from the graph or the numbering raises KeyError. */
  function GetEntryValue(graph: map<NodeKey, Node>, nodeMap: map<NodeKey, nat>, key: NodeKey)
    : (r: Result<(bool, EntryValue)>)
    ensures r.Ok? <==> key in graph && (graph[key].guess == "" || key in nodeMap)
    ensures r.Ok? ==> (r.value.0 <==> graph[key].guess == "")
    ensures r.Ok? && !r.value.0 ==> r.value.1 == SectionRef(nodeMap[key])
    ensures r.Ok? && r.value.0 ==>
      && (r.value.1 == NoValue <==> graph[key].patterns == [])
      && (r.value.1 != NoValue ==> r.value.1 == Word(graph[key].patterns[0]))
  {
    if key !in graph then Err(KeyError)
    else if graph[key].guess == "" then
      if graph[key].patterns == [] then Ok((true, NoValue)) else Ok((true, Word(graph[key].patterns[0])))
    else if key !in nodeMap then Err(KeyError)
    else Ok((false, SectionRef(nodeMap[key])))
  }

  /** The pattern an entry of the section for `k` leads to. */
  function Outcome(k: NodeKey, e: Entry): string
  {
    if e.pattern.None? then k.pattern else e.pattern.value
  }

  /** The entry for one child pattern of the node at `k`: the child that reveals nothing gets
      pattern None, a fully revealed child names itself, and every other child is looked up
      one guess further on. */
  function EntryOf(graph: map<NodeKey, Node>, nodeMap: map<NodeKey, nat>, k: NodeKey, subpattern: string)
    : (r: Result<Entry>)
    ensures r.Ok? ==> (r.value.pattern.None? <==> subpattern == k.pattern) && Outcome(k, r.value) == subpattern
    ensures r.Ok? && subpattern != k.pattern && !HasPlaceholder(subpattern) ==>
      r.value == Entry(Some(subpattern), true, Revealed(subpattern))
    ensures r.Ok? && r.value.value.SectionRef? ==>
      var child := NodeKey(k.numGuesses + 1, subpattern);
      child in graph && graph[child].guess != "" && child in nodeMap && r.value.value.id == nodeMap[child]
    ensures r.Err? ==> subpattern == k.pattern || HasPlaceholder(subpattern)
    ensures subpattern == k.pattern || HasPlaceholder(subpattern) ==>
      var v := GetEntryValue(graph, nodeMap, NodeKey(k.numGuesses + 1, subpattern));
      (r.Ok? <==> v.Ok?) && (r.Ok? ==> (r.value.isLeaf, r.value.value) == v.value)
  {
    var child := NodeKey(k.numGuesses + 1, subpattern);
    if subpattern == k.pattern then
      match GetEntryValue(graph, nodeMap, child)
      case Err(e) => Err(e)
      case Ok(v) => Ok(Entry(None, v.0, v.1))
    else if !HasPlaceholder(subpattern) then
      Ok(Entry(Some(subpattern), true, Revealed(subpattern)))
    else
      match GetEntryValue(graph, nodeMap, child)
      case Err(e) => Err(e)
      case Ok(v) => Ok(Entry(Some(subpattern), v.0, v.1))
  }

  /** The entries of the section for `k` before sorting, one per child pattern; the first
      KeyError ends the construction. */
  function EntriesOf(graph: map<NodeKey, Node>, nodeMap: map<NodeKey, nat>, k: NodeKey, patterns: seq<string>)
    : (r: Result<seq<Entry>>)
    ensures r.Ok? <==> forall p :: p in patterns ==> EntryOf(graph, nodeMap, k, p).Ok?
    ensures r.Ok? ==> |r.value| == |patterns|
    ensures r.Ok? ==> forall i :: 0 <= i < |patterns| ==> EntryOf(graph, nodeMap, k, patterns[i]) == Ok(r.value[i])
  {
    if patterns == [] then Ok([])
    else
      var init := patterns[..|patterns| - 1];
      var last := patterns[|patterns| - 1];
      assert patterns == init + [last];
      match EntriesOf(graph, nodeMap, k, init)
      case Err(e) => Err(e)
      case Ok(es) =>
        match EntryOf(graph, nodeMap, k, last)
        case Err(e) => Err(e)
        case Ok(entry) => Ok(es + [entry])
  }

  /** Every child lookup of the node at `k` finds its node. */
  ghost predicate ChildrenResolvable(graph: map<NodeKey, Node>, k: NodeKey)
    requires k in graph
  {
    forall p :: p in graph[k].patterns && (p == k.pattern || HasPlaceholder(p)) ==>
      NodeKey(k.numGuesses + 1, p) in graph
  }

  /** A graph produce_book_data turns into a book without a KeyError: every lookup made for a
      section finds its node, and every pattern length has its blank-pattern root. */
  ghost predicate Resolvable(graph: map<NodeKey, Node>)
  {
    && (forall k :: k in graph && InBook(graph, k) ==> ChildrenResolvable(graph, k))
    && (forall k :: k in graph ==> NodeKey(0, Blank(|k.pattern|)) in graph)
  }

  /** With every guess node numbered, a section's entries are built exactly when its children
      resolve. */
  lemma EntriesOkIffResolvable(graph: map<NodeKey, Node>, nodeMap: map<NodeKey, nat>, k: NodeKey)
    requires k in graph
    requires forall c :: c in graph && graph[c].guess != "" ==> c in nodeMap
    ensures EntriesOf(graph, nodeMap, k, graph[k].patterns).Ok? <==> ChildrenResolvable(graph, k)
  {
    if ChildrenResolvable(graph, k) {
      forall p | p in graph[k].patterns
        ensures EntryOf(graph, nodeMap, k, p).Ok?
      {
      }
    } else {
      var p :| p in graph[k].patterns && (p == k.pattern || HasPlaceholder(p)) &&
               NodeKey(k.numGuesses + 1, p) !in graph;
      assert EntryOf(graph, nodeMap, k, p).Err?;
    }
  }

  /** The pattern lengths of the graph's nodes. */
  function PatternLengths(graph: map<NodeKey, Node>): (r: set<nat>)
    ensures forall l :: l in r <==> exists k :: k in graph && |k.pattern| == l
  {
    set k | k in graph :: |k.pattern|
  }

  /** `length_map`: each pattern length of the graph to the number of its blank-pattern root.
      The source builds a list of pairs in set order; the model keeps the pairs as a map. */
  function LengthMap(graph: map<NodeKey, Node>, nodeMap: map<NodeKey, nat>): (r: Result<map<nat, nat>>)
    ensures r.Ok? <==> forall k :: k in graph ==> NodeKey(0, Blank(|k.pattern|)) in nodeMap
    ensures r.Ok? ==> r.value.Keys == PatternLengths(graph)
    ensures r.Ok? ==> forall l :: l in r.value ==> NodeKey(0, Blank(l)) in nodeMap && r.value[l] == nodeMap[NodeKey(0, Blank(l))]
  {
    var lengths := PatternLengths(graph);
    if forall l :: l in lengths ==> NodeKey(0, Blank(l)) in nodeMap then
      Ok(map l | l in lengths :: nodeMap[NodeKey(0, Blank(l))])
    else
      Err(KeyError)
  }

  /** Each length of the length map leads to the section of the blank-pattern root. */
  lemma LengthMapPointsToRoots(graph: map<NodeKey, Node>, order: seq<NodeKey>)
    requires Distinct(order)
    requires LengthMap(graph, Number(order)).Ok?
    ensures IsLengthMap(graph, order, LengthMap(graph, Number(order)).value)
  {
    NumberIsNumbering(order);
    LengthMapNumbered(graph, order, Number(order));
  }

  /** A length map built from a numbering leads to the positions of the roots. */
  lemma LengthMapNumbered(graph: map<NodeKey, Node>, order: seq<NodeKey>, nodeMap: map<NodeKey, nat>)
    requires IsNumbering(order, nodeMap)
    requires LengthMap(graph, nodeMap).Ok?
    ensures IsLengthMap(graph, order, LengthMap(graph, nodeMap).value)
  {
  }

  /** A numbered node sits at the position its number names. */
  lemma NumberedAt(order: seq<NodeKey>, k: NodeKey)
    requires Distinct(order) && k in Number(order)
    ensures 1 <= Number(order)[k] <= |order| && order[Number(order)[k] - 1] == k
  {
    NumberPositions(order);
    var j :| 0 <= j < |order| && order[j] == k;
  }

  /** With the book's nodes numbered, the sections and the length map are built exactly when
      the graph is resolvable. */
  lemma ResolvableIffBuilt(graph: map<NodeKey, Node>, order: seq<NodeKey>)
    requires forall k :: k in order <==> k in graph && InBook(graph, k)
    ensures Resolvable(graph) <==>
      && (forall k :: k in order ==> ChildrenResolvable(graph, k))
      && (forall k :: k in graph ==> NodeKey(0, Blank(|k.pattern|)) in Number(order))
  {
    forall k | k in graph && NodeKey(0, Blank(|k.pattern|)) in graph
      ensures NodeKey(0, Blank(|k.pattern|)) in Number(order)
    {
      assert InBook(graph, NodeKey(0, Blank(|k.pattern|)));
    }
  }

  /** A section entry pointing to another section points to the node one guess further on
      with the entry's pattern, and that section comes strictly later in the book. */
  lemma ForwardReference(graph: map<NodeKey, Node>, order: seq<NodeKey>, i: int, p: string, e: Entry)
    requires Distinct(order) && SortedBy(order, KeyLe)
    requires 0 <= i < |order|
    requires EntryOf(graph, Number(order), order[i], p) == Ok(e) && e.value.SectionRef?
    ensures i + 1 < e.value.id <= |order|
    ensures order[e.value.id - 1] == NodeKey(order[i].numGuesses + 1, Outcome(order[i], e))
  {
    NumberIsNumbering(order);
    ForwardTarget(graph, order, Number(order), i, p, e);
    SortedGuessesLater(order, i, e.value.id - 1);
  }

  /** `nodeMap` numbers nodes by their 1-based positions in `order`. */
  ghost predicate IsNumbering(order: seq<NodeKey>, nodeMap: map<NodeKey, nat>)
  {
    forall k :: k in nodeMap ==> 1 <= nodeMap[k] <= |order| && order[nodeMap[k] - 1] == k
  }

  lemma NumberIsNumbering(order: seq<NodeKey>)
    requires Distinct(order)
    ensures IsNumbering(order, Number(order))
  {
    forall k | k in Number(order)
      ensures 1 <= Number(order)[k] <= |order| && order[Number(order)[k] - 1] == k
    {
      NumberedAt(order, k);
    }
  }

  /** A section entry pointing to another section names the number of the node one guess
      further on with the entry's pattern. */
  lemma ForwardTarget(graph: map<NodeKey, Node>, order: seq<NodeKey>, nodeMap: map<NodeKey, nat>, i: int,
                      p: string, e: Entry)
    requires IsNumbering(order, nodeMap)
    requires 0 <= i < |order|
    requires EntryOf(graph, nodeMap, order[i], p) == Ok(e) && e.value.SectionRef?
    ensures 1 <= e.value.id <= |order|
    ensures order[e.value.id - 1] == NodeKey(order[i].numGuesses + 1, Outcome(order[i], e))
  {
  }

  /** In the sorted book a node with more guesses comes later. */
  lemma SortedGuessesLater(order: seq<NodeKey>, i: int, j: int)
    requires SortedBy(order, KeyLe)
    requires 0 <= i < |order| && 0 <= j < |order|
    requires order[i].numGuesses < order[j].numGuesses
    ensures i < j
  {
  }

  /** Every entry of the book that points to a section points forward, to the node one guess
      further on whose pattern is the entry's outcome. */
  lemma SectionsPointForward(graph: map<NodeKey, Node>, order: seq<NodeKey>, sections: seq<Section>)
    requires Distinct(order) && SortedBy(order, KeyLe)
    requires IsBook(graph, order, sections)
    ensures PointsForward(order, sections)
  {
    forall i, e | 0 <= i < |order| && e in sections[i].entries && e.value.SectionRef?
      ensures i + 1 < e.value.id <= |order|
      ensures order[e.value.id - 1] == NodeKey(order[i].numGuesses + 1, Outcome(order[i], e))
    {
      var k := order[i];
      assert SectionFor(graph, order, i, sections[i]);
      var built := EntriesOf(graph, Number(order), k, graph[k].patterns).value;
      assert e in multiset(built);
      var n :| 0 <= n < |built| && built[n] == e;
      ForwardReference(graph, order, i, graph[k].patterns[n], e);
    }
  }

  /** `entries` of one section: built in the order of the node's child patterns, then sorted. */
  method SectionEntries(graph: map<NodeKey, Node>, nodeMap: map<NodeKey, nat>, k: NodeKey)
    returns (r: Result<seq<Entry>>)
    requires k in graph
    ensures r.Ok? <==> EntriesOf(graph, nodeMap, k, graph[k].patterns).Ok?
    ensures r.Ok? ==> SortedBy(r.value, EntryLe)
    ensures r.Ok? ==> multiset(r.value) == multiset(EntriesOf(graph, nodeMap, k, graph[k].patterns).value)
  {
    var patterns := graph[k].patterns;
    var entries: seq<Entry> := [];
    for j := 0 to |patterns|
      invariant EntriesOf(graph, nodeMap, k, patterns[..j]) == Ok(entries)
    {
      assert patterns[..j + 1][..j] == patterns[..j];
      var e := EntryOf(graph, nodeMap, k, patterns[j]);
      if e.Err? {
        return Err(e.error);
      }
      entries := entries + [e.value];
    }
    assert patterns[..|patterns|] == patterns;
    var a := new Entry[|entries|](i requires 0 <= i < |entries| => entries[i]);
    assert a[..] == entries;
    EntryOrderIsTotalPreorder();
    SortInPlace(a, EntryLe);
    return Ok(a[..]);
  }

  /** Section `i` of the book: numbered `i + 1`, showing the pattern, wrong-guess count and
      guess of the `i`-th node, with that node's entries sorted. */
  ghost predicate SectionFor(graph: map<NodeKey, Node>, order: seq<NodeKey>, i: int, s: Section)
    requires 0 <= i < |order| && order[i] in graph
  {
    var k := order[i];
    && s == Section(i + 1, k.pattern, graph[k].wrong, graph[k].guess, s.entries)
    && EntriesOf(graph, Number(order), k, graph[k].patterns).Ok?
    && SortedBy(s.entries, EntryLe)
    && multiset(s.entries) == multiset(EntriesOf(graph, Number(order), k, graph[k].patterns).value)
  }

  /** `sections` is the book made of the numbered nodes `order`. */
  ghost predicate IsBook(graph: map<NodeKey, Node>, order: seq<NodeKey>, sections: seq<Section>)
  {
    && (forall k :: k in order ==> k in graph)
    && |sections| == |order|
    && forall i :: 0 <= i < |order| ==> SectionFor(graph, order, i, sections[i])
  }

  /** Every entry pointing to a section points to a later one: the node one guess further on
      whose pattern is the entry's outcome. */
  ghost predicate PointsForward(order: seq<NodeKey>, sections: seq<Section>)
    requires |sections| == |order|
  {
    forall i, e :: 0 <= i < |order| && e in sections[i].entries && e.value.SectionRef? ==>
      && i + 1 < e.value.id <= |order|
      && order[e.value.id - 1] == NodeKey(order[i].numGuesses + 1, Outcome(order[i], e))
  }

  /** `lengths` maps every pattern length of the graph to the section of its blank-pattern root. */
  ghost predicate IsLengthMap(graph: map<NodeKey, Node>, order: seq<NodeKey>, lengths: map<nat, nat>)
  {
    && lengths.Keys == PatternLengths(graph)
    && forall l :: l in lengths ==> 1 <= lengths[l] <= |order| && order[lengths[l] - 1] == NodeKey(0, Blank(l))
  }

  /** The filter and sort of produce_book_data: the book's nodes, in the shuffled order, sorted
      by `(num_guesses, len(pattern))`. */
  method SortedBookKeys(graph: map<NodeKey, Node>, shuffled: seq<NodeKey>) returns (order: seq<NodeKey>)
    requires Distinct(shuffled)
    requires forall k :: k in shuffled <==> k in graph
    ensures Distinct(order) && (forall k :: k in order <==> k in graph && InBook(graph, k))
    ensures SortedBy(order, KeyLe)
    ensures multiset(order) == multiset(BookKeys(shuffled, graph))
  {
    var nodes := BookKeys(shuffled, graph);
    var a := new NodeKey[|nodes|](i requires 0 <= i < |nodes| => nodes[i]);
    assert a[..] == nodes;
    KeyOrderIsTotalPreorder();
    SortInPlace(a, KeyLe);
    order := a[..];
    DistinctPermutation(nodes, order);
    assert forall k :: k in order <==> k in multiset(nodes);
  }

  /** The first `|sections|` sections of the book, built from nodes whose children resolve. */
  ghost predicate SectionsSoFar(graph: map<NodeKey, Node>, order: seq<NodeKey>, sections: seq<Section>)
    requires forall k :: k in order ==> k in graph
  {
    && |sections| <= |order|
    && forall j :: 0 <= j < |sections| ==>
         SectionFor(graph, order, j, sections[j]) && ChildrenResolvable(graph, order[j])
  }

  lemma SectionsStep(graph: map<NodeKey, Node>, order: seq<NodeKey>, sections: seq<Section>, s: Section)
    requires forall k :: k in order ==> k in graph
    requires SectionsSoFar(graph, order, sections) && |sections| < |order|
    requires SectionFor(graph, order, |sections|, s) && ChildrenResolvable(graph, order[|sections|])
    ensures SectionsSoFar(graph, order, sections + [s])
  {
    var next := sections + [s];
    forall j | 0 <= j < |next|
      ensures SectionFor(graph, order, j, next[j]) && ChildrenResolvable(graph, order[j])
    {
      if j < |sections| {
        assert next[j] == sections[j];
      }
    }
  }

  /** The section loop of produce_book_data over the numbered nodes `order`. */
  method BuildSections(graph: map<NodeKey, Node>, order: seq<NodeKey>, nodeMap: map<NodeKey, nat>)
    returns (r: Result<seq<Section>>)
    requires forall k :: k in order ==> k in graph
    requires forall c :: c in graph && graph[c].guess != "" ==> c in order
    requires nodeMap == Number(order)
    ensures r.Ok? <==> forall k :: k in order ==> ChildrenResolvable(graph, k)
    ensures r.Ok? ==> IsBook(graph, order, r.value)
  {
    var sections: seq<Section> := [];
    for i := 0 to |order|
      invariant |sections| == i
      invariant SectionsSoFar(graph, order, sections)
    {
      var k := order[i];
      var entries := SectionEntries(graph, nodeMap, k);
      EntriesOkIffResolvable(graph, nodeMap, k);
      if entries.Err? {
        return Err(KeyError);
      }
      var s := Section(i + 1, k.pattern, graph[k].wrong, graph[k].guess, entries.value);
      SectionsStep(graph, order, sections, s);
      sections := sections + [s];
    }
    return Ok(sections);
  }

  /** produce_book_data. `shuffled` is the order of the graph's items once shuffled (any order
      at all); the kept nodes are sorted by `(num_guesses, len(pattern))` into `order`, numbered
      from 1, and each turned into a section. A missing node raises KeyError. */
  method ProduceBookData(graph: map<NodeKey, Node>, shuffled: seq<NodeKey>)
    returns (r: Result<(seq<Section>, map<nat, nat>)>, ghost order: seq<NodeKey>)
    requires Distinct(shuffled)
    requires forall k :: k in shuffled <==> k in graph
    ensures Distinct(order) && (forall k :: k in order <==> k in graph && InBook(graph, k))
    ensures SortedBy(order, KeyLe)
    ensures r.Ok? <==> Resolvable(graph)
    ensures r.Ok? ==> IsBook(graph, order, r.value.0) && PointsForward(order, r.value.0)
    ensures r.Ok? ==> IsLengthMap(graph, order, r.value.1)
  {
    var sorted := SortedBookKeys(graph, shuffled);
    order := sorted;
    ResolvableIffBuilt(graph, order);
    var nodeMap := Number(sorted);
    var sections := BuildSections(graph, sorted, nodeMap);
    if sections.Err? {
      return Err(KeyError), order;
    }
    var lengths := LengthMap(graph, nodeMap);
    if lengths.Err? {
      return Err(KeyError), order;
    }
    SectionsPointForward(graph, order, sections.value);
    LengthMapPointsToRoots(graph, order);
    return Ok((sections.value, lengths.value)), order;
  }
}
