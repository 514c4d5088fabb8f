/** build_graph and build_complete_graph (hangman.py:47-101): the greedy decision graph, a dict
    from `(num_guesses, pattern)` to `(guess, wrong, patterns)` that build_graph fills in place. */
module GraphBuilder {
  import opened Wrappers
  import opened Patterns
  import opened Partition
  import opened Scoring
  import Text

  /** The wrong-guess budget of Hangman. */
  const Ceiling: nat := 6

  /** `alphabet` (hangman.py:17). */
  const Alphabet: set<char> := {'a', 'b', 'c', 'd', 'e', 'f', 'g', 'h', 'i', 'j', 'k', 'l', 'm',
                                'n', 'o', 'p', 'q', 'r', 's', 't', 'u', 'v', 'w', 'x', 'y', 'z'}

  datatype NodeKey = NodeKey(numGuesses: nat, pattern: string)

  /** `guess` is the letter to guess next, "" in a leaf. `patterns` is overloaded as in the
      source: the merged child patterns in a guess node, the group's one word in a single-word
      leaf, and empty in a leaf where the wrong-guess budget ran out. */
  datatype Node = Node(guess: string, wrong: nat, patterns: seq<string>)

  /** `[combine_patterns(pattern, k) for k in subgroups.keys()]` */
  function Merged(pattern: string, keys: seq<string>): (r: seq<string>)
    ensures |r| == |keys|
    ensures forall i :: 0 <= i < |keys| ==> r[i] == CombinePatterns(pattern, keys[i])
  {
    seq(|keys|, i requires 0 <= i < |keys| => CombinePatterns(pattern, keys[i]))
  }

  /** Every hidden-letter child pattern of the guess node at `k` has a node of its own one
      guess further on. */
  ghost predicate ChildrenPresent(nodes: map<NodeKey, Node>, k: NodeKey)
    requires k in nodes
  {
    nodes[k].guess != "" ==>
      forall p :: p in nodes[k].patterns && HasPlaceholder(p) ==> NodeKey(k.numGuesses + 1, p) in nodes
  }

  /** A leaf, or a guess node whose letter is one of `letters`. */
  ghost predicate GuessFrom(node: Node, letters: set<char>)
  {
    node.guess == "" || (|node.guess| == 1 && node.guess[0] in letters)
  }

  /** What one build_graph call does to the dict: keys are only added; keys with fewer than
      `guesses` guesses are untouched; every node it writes sits at `guesses` guesses or more,
      has a pattern of length `len`, at most Ceiling wrong guesses, all its children, and
      guesses a letter of `letters`, the letters the call was given. */
  ghost predicate Extends(before: map<NodeKey, Node>, after: map<NodeKey, Node>, guesses: nat, len: nat,
                          letters: set<char>)
  {
    && before.Keys <= after.Keys
    && (forall k :: k in before && k.numGuesses < guesses ==> after[k] == before[k])
    && forall k :: k in after ==>
         || (k in before && after[k] == before[k])
         || (k.numGuesses >= guesses && |k.pattern| == len && after[k].wrong <= Ceiling
             && ChildrenPresent(after, k) && GuessFrom(after[k], letters))
  }

  /** A guess that reveals nothing costs one wrong guess. */
  function WrongAfter(pattern: string, newPattern: string, wrong: nat): (r: nat)
    ensures r == wrong || r == wrong + 1
    ensures r == wrong + 1 <==> newPattern == pattern
  {
    if newPattern == pattern then wrong + 1 else wrong
  }

  /** What build_graph returns for a group at `pattern` with `wrong` wrong guesses and
      `letters` left: the words dropped at the wrong-guess ceiling, or the exception it raises.
      It depends neither on the dict nor on the number of guesses. The three terminal cases
      come in the source's order; otherwise the best guess splits the words and the subgroups'
      reports are concatenated in dict order. */
  ghost function Pruned(pattern: string, words: seq<string>, letters: set<char>, wrong: nat,
                        ranks: map<string, int>): (r: Result<seq<string>>)
    decreases letters, 1, 0
  {
    if !HasPlaceholder(pattern) then Ok([])
    else if wrong == Ceiling then Ok(words)
    else if |words| == 1 then Ok([])
    else if letters == {} then Err(TypeError)
    else if words == [] then Err(ValueError)
    else PrunedGuess(pattern, words, letters, wrong, ranks)
  }

  /** The guess case of Pruned: the best guess splits the words, and the subgroups' reports
      are concatenated. */
  ghost function PrunedGuess(pattern: string, words: seq<string>, letters: set<char>, wrong: nat,
                             ranks: map<string, int>): (r: Result<seq<string>>)
    requires words != [] && letters != {}
    decreases letters, 0, 0
  {
    BestGuessExists(words, pattern, letters, ranks);
    var ch :| IsBestGuess(words, pattern, letters, ch, ranks);
    var g := GroupsOf(words, ch);
    GroupsPartition(words, ch);
    PrunedGroups(pattern, g.order, g.lists, letters - {ch}, wrong, ranks)
  }

  /** The reports of the subgroups keyed by `order`, each built from its merged pattern, in
      order; the first exception is passed on. */
  ghost function PrunedGroups(pattern: string, order: seq<string>, lists: map<string, seq<string>>,
                              letters: set<char>, wrong: nat, ranks: map<string, int>): (r: Result<seq<string>>)
    decreases letters, 2, |order|
  {
    if order == [] then Ok([])
    else
      match PrunedGroups(pattern, order[..|order| - 1], lists, letters, wrong, ranks)
      case Err(e) => Err(e)
      case Ok(before) =>
        var newPattern := CombinePatterns(pattern, order[|order| - 1]);
        match Pruned(newPattern, ListOf(lists, order[|order| - 1]), letters,
                     WrongAfter(pattern, newPattern, wrong), ranks)
        case Err(e) => Err(e)
        case Ok(here) => Ok(before + here)
  }

  /** In the guess case the report is the subgroups' reports under the best guess. */
  lemma PrunedGuessCase(pattern: string, words: seq<string>, letters: set<char>, wrong: nat,
                        ranks: map<string, int>, ch: char)
    requires HasPlaceholder(pattern) && wrong != Ceiling && |words| != 1 && words != []
    requires IsBestGuess(words, pattern, letters, ch, ranks)
    ensures Pruned(pattern, words, letters, wrong, ranks) ==
      PrunedGroups(pattern, GroupsOf(words, ch).order, GroupsOf(words, ch).lists, letters - {ch}, wrong, ranks)
  {
    BestGuessExists(words, pattern, letters, ranks);
    var best :| IsBestGuess(words, pattern, letters, best, ranks);
    BestGuessUnique(words, pattern, letters, ch, best, ranks);
  }

  /** The words of the group the tree names: those that end alone in a single-word leaf or
      under a fully revealed pattern. When no exception is raised, every word of the group
      is either reported pruned or named, exactly once. */
  ghost function Resolved(pattern: string, words: seq<string>, letters: set<char>, wrong: nat,
                          ranks: map<string, int>): (r: seq<string>)
    ensures Pruned(pattern, words, letters, wrong, ranks).Ok? ==>
      multiset(Pruned(pattern, words, letters, wrong, ranks).value) + multiset(r) == multiset(words)
    decreases letters, 1, 0
  {
    if !HasPlaceholder(pattern) then words
    else if wrong == Ceiling then []
    else if |words| == 1 then words
    else if letters == {} || words == [] then []
    else
      BestGuessExists(words, pattern, letters, ranks);
      var ch :| IsBestGuess(words, pattern, letters, ch, ranks);
      var g := GroupsOf(words, ch);
      GroupsPartition(words, ch);
      PrunedGuessCase(pattern, words, letters, wrong, ranks, ch);
      ResolvedGroups(pattern, g.order, g.lists, letters - {ch}, wrong, ranks)
  }

  /** The words build_graph reports as pruned come from its group. */
  lemma PrunedFromWords(pattern: string, words: seq<string>, letters: set<char>, wrong: nat,
                        ranks: map<string, int>)
    ensures Pruned(pattern, words, letters, wrong, ranks).Ok? ==>
      multiset(Pruned(pattern, words, letters, wrong, ranks).value) <= multiset(words)
  {
    var named := Resolved(pattern, words, letters, wrong, ranks);
  }

  /** The named words of the subgroups keyed by `order`, in order. */
  ghost function ResolvedGroups(pattern: string, order: seq<string>, lists: map<string, seq<string>>,
                                letters: set<char>, wrong: nat, ranks: map<string, int>): (r: seq<string>)
    ensures PrunedGroups(pattern, order, lists, letters, wrong, ranks).Ok? ==>
      multiset(PrunedGroups(pattern, order, lists, letters, wrong, ranks).value) + multiset(r) ==
      multiset(Flatten(order, lists))
    decreases letters, 2, |order|
  {
    if order == [] then []
    else
      var init, last := order[..|order| - 1], order[|order| - 1];
      var newPattern := CombinePatterns(pattern, last);
      var before := ResolvedGroups(pattern, init, lists, letters, wrong, ranks);
      var here := Resolved(newPattern, ListOf(lists, last), letters, WrongAfter(pattern, newPattern, wrong), ranks);
      assert multiset(before + here) == multiset(before) + multiset(here);
      before + here
  }

  /** Once a subgroup raises, the whole loop raises the same exception. */
  lemma {:induction false} PrunedGroupsErr(pattern: string, order: seq<string>, lists: map<string, seq<string>>,
                                           letters: set<char>, wrong: nat, ranks: map<string, int>, i: nat)
    requires i <= |order|
    requires PrunedGroups(pattern, order[..i], lists, letters, wrong, ranks).Err?
    ensures PrunedGroups(pattern, order, lists, letters, wrong, ranks) ==
            PrunedGroups(pattern, order[..i], lists, letters, wrong, ranks)
    decreases |order|
  {
    if i < |order| {
      var init := order[..|order| - 1];
      assert init[..i] == order[..i];
      PrunedGroupsErr(pattern, init, lists, letters, wrong, ranks, i);
    } else {
      assert order[..i] == order;
    }
  }

  /** The graph dict shared by all build_graph calls. */
  class Graph {
    var nodes: map<NodeKey, Node>

    constructor ()
      ensures nodes == map[]
    {
      nodes := map[];
    }
  }

  /** Every pattern of the dict built from `words` has the words' length. */
  lemma GroupKeyLengths(words: seq<string>, ch: char, n: nat)
    requires forall w :: w in words ==> |w| == n
    ensures forall k :: k in GroupsOf(words, ch).lists ==> |k| == n
    ensures forall k, w :: k in GroupsOf(words, ch).lists && w in GroupsOf(words, ch).lists[k] ==> w in words
  {
    GroupKeysExact(words, ch);
    GroupListsExact(words, ch);
    forall k | k in GroupsOf(words, ch).lists
      ensures forall w :: w in GroupsOf(words, ch).lists[k] ==> w in words
    {
      SelectMembers(words, ch, k);
    }
  }

  /** build_graph. The three terminal cases are tested in the source's order; otherwise the
      best letter is chosen, its node recorded, and every subgroup built one guess further on.
      Returns what Pruned specifies; the dict gains the nodes of this group's subtree, each
      guessing a letter it was given, and the group's own node records `wrong`. */
  method BuildGraph(graph: Graph, pattern: string, words: seq<string>, letters: set<char>,
                    guesses: nat, wrong: nat, ranks: map<string, int>)
    returns (pruned: Result<seq<string>>)
    requires wrong <= Ceiling
    requires forall w :: w in words ==> |w| == |pattern|
    modifies graph
    decreases letters, 2
    ensures pruned == Pruned(pattern, words, letters, wrong, ranks)
    ensures pruned.Ok? ==> multiset(pruned.value) <= multiset(words)
    ensures pruned.Ok? ==> Extends(old(graph.nodes), graph.nodes, guesses, |pattern|, letters)
    ensures pruned.Ok? && HasPlaceholder(pattern) ==>
      NodeKey(guesses, pattern) in graph.nodes && graph.nodes[NodeKey(guesses, pattern)].wrong == wrong
    ensures !HasPlaceholder(pattern) ==> pruned == Ok([]) && graph.nodes == old(graph.nodes)
    ensures HasPlaceholder(pattern) && wrong == Ceiling ==>
      && pruned == Ok(words)
      && graph.nodes == old(graph.nodes)[NodeKey(guesses, pattern) := Node("", Ceiling, [])]
    ensures HasPlaceholder(pattern) && wrong < Ceiling && |words| == 1 ==>
      && pruned == Ok([])
      && graph.nodes == old(graph.nodes)[NodeKey(guesses, pattern) := Node("", wrong, words)]
    ensures HasPlaceholder(pattern) && wrong < Ceiling && |words| != 1 ==>
      && (letters == {} ==> pruned == Err(TypeError))
      && (letters != {} && words == [] ==> pruned == Err(ValueError))
      && (pruned.Ok? ==> words != [] && exists ch ::
            && IsBestGuess(words, pattern, letters, ch, ranks)
            && graph.nodes[NodeKey(guesses, pattern)] ==
                 Node([ch], wrong, Merged(pattern, GroupsOf(words, ch).order)))
  {
    var key := NodeKey(guesses, pattern);
    PrunedFromWords(pattern, words, letters, wrong, ranks);
    if !HasPlaceholder(pattern) {
      return Ok([]);
    }
    if wrong == Ceiling {
      // the budget is spent: a leaf, and every word of the group is lost
      graph.nodes := graph.nodes[key := Node("", wrong, [])];
      return Ok(words);
    }
    if |words| == 1 {
      graph.nodes := graph.nodes[key := Node("", wrong, words)];
      return Ok([]);
    }
    if words == [] {
      // max() of no subgroups, or unpacking best_guess = None when no letter is left
      return if letters == {} then Err(TypeError) else Err(ValueError);
    }
    var best := SelectGuess(words, pattern, letters, ranks);
    if best.None? {
      return Err(TypeError);
    }
    var (ch, subgroups) := best.value;
    GroupsOfValid(words, ch);
    GroupKeyLengths(words, ch, |pattern|);
    PrunedGuessCase(pattern, words, letters, wrong, ranks, ch);
    var node := Node([ch], wrong, Merged(pattern, subgroups.order));
    ghost var before := graph.nodes;
    graph.nodes := graph.nodes[key := node];
    pruned := BuildSubgroups(graph, key, ch, subgroups, letters, ranks);
    if pruned.Ok? {
      ExtendsBelowWrite(before, graph.nodes, key, node, |pattern|, letters);
      ExtendsBelowDone(before, graph.nodes, key, |pattern|, letters);
    }
  }

  /** The loop of build_graph over the subgroups of the guess node at `key`, in dict order; the
      pruned words are concatenated and an exception from a subgroup is passed on. */
  method BuildSubgroups(graph: Graph, key: NodeKey, ch: char, subgroups: Groups, letters: set<char>,
                        ranks: map<string, int>)
    returns (pruned: Result<seq<string>>)
    requires ch in letters
    requires subgroups.Valid()
    requires forall k :: k in subgroups.lists ==> |k| == |key.pattern|
    requires forall k, w :: k in subgroups.lists && w in subgroups.lists[k] ==> |w| == |key.pattern|
    requires key in graph.nodes
    requires graph.nodes[key].wrong < Ceiling
    requires graph.nodes[key].guess == [ch]
    requires graph.nodes[key].patterns == Merged(key.pattern, subgroups.order)
    modifies graph
    decreases letters, 1
    ensures pruned == PrunedGroups(key.pattern, subgroups.order, subgroups.lists, letters - {ch},
                                   old(graph.nodes[key].wrong), ranks)
    ensures pruned.Ok? ==>
      SubgroupsBuilt(old(graph.nodes), graph.nodes, key, old(graph.nodes[key]), |subgroups.order|, letters)
  {
    var node := graph.nodes[key];
    var acc: seq<string> := [];
    SubgroupsStart(graph.nodes, key, letters);
    assert subgroups.order[..0] == [];
    for i := 0 to |subgroups.order|
      invariant SubgroupsBuilt(old(graph.nodes), graph.nodes, key, old(graph.nodes[key]), i, letters)
      invariant PrunedGroups(key.pattern, subgroups.order[..i], subgroups.lists, letters - {ch}, node.wrong, ranks) == Ok(acc)
    {
      ghost var before := graph.nodes;
      var subpattern := subgroups.order[i];
      var r := BuildChild(graph, key, ch, subpattern, subgroups.lists[subpattern], letters, node.wrong, ranks);
      SubgroupNext(old(graph.nodes), before, graph.nodes, key, ch, subgroups, letters, ranks, i, acc, r);
      if r.Err? {
        return r;
      }
      acc := acc + r.value;
    }
    assert subgroups.order[..|subgroups.order|] == subgroups.order;
    return Ok(acc);
  }

  /** The loop's report one subgroup further. */
  lemma PrunedGroupsStep(pattern: string, order: seq<string>, lists: map<string, seq<string>>,
                         letters: set<char>, wrong: nat, ranks: map<string, int>, i: nat)
    requires i < |order|
    requires PrunedGroups(pattern, order[..i], lists, letters, wrong, ranks).Ok?
    ensures PrunedGroups(pattern, order[..i + 1], lists, letters, wrong, ranks) ==
      var r := Pruned(CombinePatterns(pattern, order[i]), ListOf(lists, order[i]), letters,
                      WrongAfter(pattern, CombinePatterns(pattern, order[i]), wrong), ranks);
      if r.Err? then r else Ok(PrunedGroups(pattern, order[..i], lists, letters, wrong, ranks).value + r.value)
  {
    assert order[..i + 1][..i] == order[..i];
  }

  /** The loop's report after one more subgroup: an error from it is the report of the whole
      loop, and otherwise its words are appended. */
  lemma PrunedGroupsNext(pattern: string, order: seq<string>, lists: map<string, seq<string>>,
                         letters: set<char>, wrong: nat, ranks: map<string, int>, i: nat,
                         acc: seq<string>, r: Result<seq<string>>)
    requires i < |order|
    requires PrunedGroups(pattern, order[..i], lists, letters, wrong, ranks) == Ok(acc)
    requires r == Pruned(CombinePatterns(pattern, order[i]), ListOf(lists, order[i]), letters,
                         WrongAfter(pattern, CombinePatterns(pattern, order[i]), wrong), ranks)
    ensures r.Err? ==> PrunedGroups(pattern, order, lists, letters, wrong, ranks) == r
    ensures r.Ok? ==> PrunedGroups(pattern, order[..i + 1], lists, letters, wrong, ranks) == Ok(acc + r.value)
  {
    PrunedGroupsStep(pattern, order, lists, letters, wrong, ranks, i);
    if r.Err? {
      PrunedGroupsErr(pattern, order, lists, letters, wrong, ranks, i + 1);
    }
  }

  /** One turn of build_graph's loop over the subgroups of the guess node at `key`: the
      subgroup is built one guess further on, from the merged pattern, without the guessed
      letter, and with one more wrong guess when the merged pattern equals the current one. */
  method BuildChild(graph: Graph, key: NodeKey, ch: char, subpattern: string, subwords: seq<string>,
                    letters: set<char>, wrong: nat, ranks: map<string, int>)
    returns (pruned: Result<seq<string>>)
    requires ch in letters
    requires wrong < Ceiling
    requires |subpattern| == |key.pattern|
    requires forall w :: w in subwords ==> |w| == |key.pattern|
    modifies graph
    decreases letters, 0
    ensures pruned == Pruned(CombinePatterns(key.pattern, subpattern), subwords, letters - {ch},
                             WrongAfter(key.pattern, CombinePatterns(key.pattern, subpattern), wrong), ranks)
    ensures pruned.Ok? ==> Extends(old(graph.nodes), graph.nodes, key.numGuesses + 1, |key.pattern|, letters - {ch})
    ensures pruned.Ok? && HasPlaceholder(CombinePatterns(key.pattern, subpattern)) ==>
      && NodeKey(key.numGuesses + 1, CombinePatterns(key.pattern, subpattern)) in graph.nodes
      && graph.nodes[NodeKey(key.numGuesses + 1, CombinePatterns(key.pattern, subpattern))].wrong ==
           if CombinePatterns(key.pattern, subpattern) == key.pattern then wrong + 1 else wrong
  {
    var newPattern := CombinePatterns(key.pattern, subpattern);
    pruned := BuildGraph(graph, newPattern, subwords, letters - {ch}, key.numGuesses + 1,
                         WrongAfter(key.pattern, newPattern, wrong), ranks);
  }

  /** The dict while build_graph works through its subgroups: Extends, with the node at `key`
      written and everything else it wrote lying strictly below it. */
  ghost predicate ExtendsBelow(before: map<NodeKey, Node>, after: map<NodeKey, Node>, key: NodeKey, len: nat,
                               letters: set<char>)
  {
    && before.Keys <= after.Keys
    && (forall k :: k in before && k.numGuesses < key.numGuesses ==> after[k] == before[k])
    && forall k :: k in after ==>
         || (k in before && after[k] == before[k])
         || k == key
         || (k.numGuesses > key.numGuesses && |k.pattern| == len && after[k].wrong <= Ceiling
             && ChildrenPresent(after, k) && GuessFrom(after[k], letters))
  }

  /** The first `i + 1` child patterns have their nodes once the `i`-th child is built. */
  lemma ChildrenSoFar(before: map<NodeKey, Node>, after: map<NodeKey, Node>, n: nat, children: seq<string>, i: nat)
    requires i < |children|
    requires before.Keys <= after.Keys
    requires forall j :: 0 <= j < i && HasPlaceholder(children[j]) ==> NodeKey(n, children[j]) in before
    requires HasPlaceholder(children[i]) ==> NodeKey(n, children[i]) in after
    ensures forall j :: 0 <= j < i + 1 && HasPlaceholder(children[j]) ==> NodeKey(n, children[j]) in after
  {
  }

  /** The dict after build_graph's loop has built the first `i` subgroups of the guess node
      `node` at `key`: the frame of the loop holds and those subgroups' nodes are present. */
  ghost predicate SubgroupsBuilt(start: map<NodeKey, Node>, nodes: map<NodeKey, Node>, key: NodeKey, node: Node,
                                 i: nat, letters: set<char>)
  {
    && i <= |node.patterns|
    && key in nodes && nodes[key] == node
    && ExtendsBelow(start, nodes, key, |key.pattern|, letters)
    && forall j :: 0 <= j < i && HasPlaceholder(node.patterns[j]) ==>
         NodeKey(key.numGuesses + 1, node.patterns[j]) in nodes
  }

  /** One turn of the loop over the subgroups, on both the report and the dict. */
  lemma SubgroupNext(start: map<NodeKey, Node>, before: map<NodeKey, Node>, after: map<NodeKey, Node>,
                     key: NodeKey, ch: char, subgroups: Groups, letters: set<char>, ranks: map<string, int>,
                     i: nat, acc: seq<string>, r: Result<seq<string>>)
    requires subgroups.Valid() && i < |subgroups.order|
    requires key in start && start[key].patterns == Merged(key.pattern, subgroups.order)
    requires SubgroupsBuilt(start, before, key, start[key], i, letters)
    requires PrunedGroups(key.pattern, subgroups.order[..i], subgroups.lists, letters - {ch}, start[key].wrong, ranks) == Ok(acc)
    requires r == Pruned(CombinePatterns(key.pattern, subgroups.order[i]), subgroups.lists[subgroups.order[i]],
                         letters - {ch}, WrongAfter(key.pattern, CombinePatterns(key.pattern, subgroups.order[i]),
                                                    start[key].wrong), ranks)
    requires r.Ok? ==> Extends(before, after, key.numGuesses + 1, |key.pattern|, letters - {ch})
    requires r.Ok? && HasPlaceholder(CombinePatterns(key.pattern, subgroups.order[i])) ==>
      NodeKey(key.numGuesses + 1, CombinePatterns(key.pattern, subgroups.order[i])) in after
    ensures r.Err? ==>
      PrunedGroups(key.pattern, subgroups.order, subgroups.lists, letters - {ch}, start[key].wrong, ranks) == r
    ensures r.Ok? ==> SubgroupsBuilt(start, after, key, start[key], i + 1, letters)
    ensures r.Ok? ==>
      PrunedGroups(key.pattern, subgroups.order[..i + 1], subgroups.lists, letters - {ch}, start[key].wrong, ranks) ==
      Ok(acc + r.value)
  {
    assert ListOf(subgroups.lists, subgroups.order[i]) == subgroups.lists[subgroups.order[i]];
    PrunedGroupsNext(key.pattern, subgroups.order, subgroups.lists, letters - {ch}, start[key].wrong, ranks, i, acc, r);
    if r.Ok? {
      SubgroupsStep(start, before, after, key, start[key], i, letters, ch);
    }
  }

  /** Before the loop nothing is built yet. */
  lemma SubgroupsStart(nodes: map<NodeKey, Node>, key: NodeKey, letters: set<char>)
    requires key in nodes
    ensures SubgroupsBuilt(nodes, nodes, key, nodes[key], 0, letters)
  {
  }

  /** Building the `i`-th subgroup takes the loop one subgroup further. */
  lemma SubgroupsStep(start: map<NodeKey, Node>, before: map<NodeKey, Node>, after: map<NodeKey, Node>,
                      key: NodeKey, node: Node, i: nat, letters: set<char>, ch: char)
    requires SubgroupsBuilt(start, before, key, node, i, letters)
    requires i < |node.patterns|
    requires Extends(before, after, key.numGuesses + 1, |key.pattern|, letters - {ch})
    requires HasPlaceholder(node.patterns[i]) ==> NodeKey(key.numGuesses + 1, node.patterns[i]) in after
    ensures SubgroupsBuilt(start, after, key, node, i + 1, letters)
  {
    ExtendsBelowStep(start, before, after, key, |key.pattern|, letters, ch);
    ChildrenSoFar(before, after, key.numGuesses + 1, node.patterns, i);
  }

  /** Writing the guess node before the loop leaves the frame relative to the dict before. */
  lemma ExtendsBelowWrite(before: map<NodeKey, Node>, after: map<NodeKey, Node>, key: NodeKey, node: Node,
                          len: nat, letters: set<char>)
    requires ExtendsBelow(before[key := node], after, key, len, letters)
    ensures ExtendsBelow(before, after, key, len, letters)
  {
  }

  /** One child's build_graph call, which guesses only letters other than `ch`, keeps the
      loop's frame. */
  lemma ExtendsBelowStep(start: map<NodeKey, Node>, before: map<NodeKey, Node>, after: map<NodeKey, Node>,
                         key: NodeKey, len: nat, letters: set<char>, ch: char)
    requires ExtendsBelow(start, before, key, len, letters)
    requires Extends(before, after, key.numGuesses + 1, len, letters - {ch})
    ensures ExtendsBelow(start, after, key, len, letters)
  {
    ChildrenPresentGrows(before, after);
  }

  /** Once every hidden-letter child of its own guess node is present, the loop's frame is
      Extends. */
  lemma ExtendsBelowDone(start: map<NodeKey, Node>, after: map<NodeKey, Node>, key: NodeKey, len: nat,
                         letters: set<char>)
    requires ExtendsBelow(start, after, key, len, letters)
    requires key in after && |key.pattern| == len && after[key].wrong <= Ceiling
    requires GuessFrom(after[key], letters)
    requires forall j :: 0 <= j < |after[key].patterns| && HasPlaceholder(after[key].patterns[j]) ==>
      NodeKey(key.numGuesses + 1, after[key].patterns[j]) in after
    ensures Extends(start, after, key.numGuesses, len, letters)
  {
    forall p | p in after[key].patterns && HasPlaceholder(p)
      ensures NodeKey(key.numGuesses + 1, p) in after
    {
      var j :| 0 <= j < |after[key].patterns| && after[key].patterns[j] == p;
    }
  }

  /** A node whose value is kept keeps its children when keys are only added. */
  lemma ChildrenPresentGrows(before: map<NodeKey, Node>, after: map<NodeKey, Node>)
    requires before.Keys <= after.Keys
    ensures forall k :: k in before && k in after && after[k] == before[k] && ChildrenPresent(before, k) ==>
      ChildrenPresent(after, k)
  {
  }

  /** The dict build_complete_graph returns when no exception is raised: nodes of every
      length present carry at most Ceiling wrong guesses, their children, a letter of the
      alphabet, and a root. */
  ghost predicate CompleteGraph(nodes: map<NodeKey, Node>, wordsByLength: map<nat, seq<string>>)
  {
    && (forall k :: k in nodes ==>
          && |k.pattern| in wordsByLength
          && nodes[k].wrong <= Ceiling
          && ChildrenPresent(nodes, k)
          && GuessFrom(nodes[k], Alphabet)
          && NodeKey(0, Blank(|k.pattern|)) in nodes)
    && forall n :: n in wordsByLength && n > 0 ==> NodeKey(0, Blank(n)) in nodes
  }

  lemma BlankHasPlaceholder(n: nat)
    ensures HasPlaceholder(Blank(n)) <==> n > 0
  {
    if n > 0 {
      assert Blank(n)[0] == Placeholder;
    }
  }

  /** What build_complete_graph returns after building the lengths `lengths` in that order:
      the reports of the trees concatenated, or the first exception. */
  ghost function PrunedLengths(lengths: seq<nat>, wordsByLength: map<nat, seq<string>>,
                               ranks: map<string, int>): Result<seq<string>>
    requires forall n :: n in lengths ==> n in wordsByLength
  {
    if lengths == [] then Ok([])
    else
      match PrunedLengths(lengths[..|lengths| - 1], wordsByLength, ranks)
      case Err(e) => Err(e)
      case Ok(before) =>
        var n := lengths[|lengths| - 1];
        match Pruned(Blank(n), wordsByLength[n], Alphabet, 0, ranks)
        case Err(e) => Err(e)
        case Ok(here) => Ok(before + here)
  }

  /** The shared dict once the lengths outside `remaining` are built: each node belongs to a
      built length and is well formed, and each built non-empty length has its root. */
  ghost predicate TreesBuilt(nodes: map<NodeKey, Node>, wordsByLength: map<nat, seq<string>>, remaining: set<nat>)
  {
    && (forall k :: k in nodes ==>
          && |k.pattern| in wordsByLength && |k.pattern| !in remaining
          && nodes[k].wrong <= Ceiling
          && ChildrenPresent(nodes, k)
          && GuessFrom(nodes[k], Alphabet)
          && NodeKey(0, Blank(|k.pattern|)) in nodes)
    && forall n :: n in wordsByLength && n !in remaining && n > 0 ==> NodeKey(0, Blank(n)) in nodes
  }

  /** Building the tree of one more length keeps TreesBuilt. */
  lemma TreesStep(before: map<NodeKey, Node>, after: map<NodeKey, Node>, wordsByLength: map<nat, seq<string>>,
                  remaining: set<nat>, length: nat)
    requires TreesBuilt(before, wordsByLength, remaining)
    requires length in remaining && remaining <= wordsByLength.Keys
    requires Extends(before, after, 0, length, Alphabet)
    requires length == 0 ==> after == before
    requires length > 0 ==> NodeKey(0, Blank(length)) in after
    ensures TreesBuilt(after, wordsByLength, remaining - {length})
  {
    ChildrenPresentGrows(before, after);
  }

  /** The report one length further. */
  lemma PrunedLengthsStep(lengths: seq<nat>, wordsByLength: map<nat, seq<string>>, ranks: map<string, int>,
                          n: nat)
    requires forall m :: m in lengths ==> m in wordsByLength
    requires n in wordsByLength
    requires PrunedLengths(lengths, wordsByLength, ranks).Ok?
    ensures PrunedLengths(lengths + [n], wordsByLength, ranks) ==
      var r := Pruned(Blank(n), wordsByLength[n], Alphabet, 0, ranks);
      if r.Err? then r else Ok(PrunedLengths(lengths, wordsByLength, ranks).value + r.value)
  {
    assert (lengths + [n])[..|lengths|] == lengths;
  }

  /** One turn of build_complete_graph's loop: the tree of one word length, from the blank
      pattern, the whole alphabet and no guesses. */
  method BuildTree(graph: Graph, length: nat, words: seq<string>, ranks: map<string, int>)
    returns (pruned: Result<seq<string>>)
    requires forall w :: w in words ==> |w| == length
    modifies graph
    ensures pruned == Pruned(Blank(length), words, Alphabet, 0, ranks)
    ensures pruned.Ok? ==> forall w :: w in pruned.value ==> w in words
    ensures pruned.Ok? ==> Extends(old(graph.nodes), graph.nodes, 0, length, Alphabet)
    ensures pruned.Ok? && length > 0 ==> NodeKey(0, Blank(length)) in graph.nodes
    ensures length == 0 ==> graph.nodes == old(graph.nodes)
  {
    BlankHasPlaceholder(length);
    pruned := BuildGraph(graph, Blank(length), words, Alphabet, 0, 0, ranks);
    if pruned.Ok? {
      forall w | w in pruned.value
        ensures w in words
      {
        assert w in multiset(pruned.value);
      }
    }
  }

  /** build_complete_graph's report once the lengths `lengths` are built, in that order, with
      `remaining` still to go. */
  ghost predicate LengthsBuilt(wordsByLength: map<nat, seq<string>>, remaining: set<nat>, lengths: seq<nat>,
                               acc: seq<string>, ranks: map<string, int>)
  {
    && remaining <= wordsByLength.Keys
    && Text.Distinct(lengths)
    && (forall n :: n in lengths <==> n in wordsByLength && n !in remaining)
    && PrunedLengths(lengths, wordsByLength, ranks) == Ok(acc)
    && forall w :: w in acc ==> exists n :: n in wordsByLength && w in wordsByLength[n]
  }

  /** A tree built without an exception takes the report one length further. */
  lemma LengthsStep(wordsByLength: map<nat, seq<string>>, remaining: set<nat>, lengths: seq<nat>,
                    acc: seq<string>, ranks: map<string, int>, length: nat, here: seq<string>)
    requires LengthsBuilt(wordsByLength, remaining, lengths, acc, ranks)
    requires length in remaining
    requires Pruned(Blank(length), wordsByLength[length], Alphabet, 0, ranks) == Ok(here)
    requires forall w :: w in here ==> w in wordsByLength[length]
    ensures LengthsBuilt(wordsByLength, remaining - {length}, lengths + [length], acc + here, ranks)
  {
    var lengths', acc' := lengths + [length], acc + here;
    PrunedLengthsStep(lengths, wordsByLength, ranks, length);
    Text.DistinctAppend(lengths, length);
    assert forall n :: n in lengths' <==> n in lengths || n == length;
    forall w | w in acc'
      ensures exists n :: n in wordsByLength && w in wordsByLength[n]
    {
      if w !in acc {
        assert w in here;
      }
    }
  }

  /** Once every length is built, the trees make up the complete graph. */
  lemma TreesDone(nodes: map<NodeKey, Node>, wordsByLength: map<nat, seq<string>>)
    requires TreesBuilt(nodes, wordsByLength, {})
    ensures CompleteGraph(nodes, wordsByLength)
  {
  }

  /** build_complete_graph: one build_graph per word length, from the blank pattern, the whole
      alphabet and no guesses, into one shared dict; the pruned lists are concatenated. The
      source reads the global `words_by_length` and ignores its own argument; here that
      grouping is the parameter. The order in which the lengths are taken is not fixed;
      `lengths` records it. */
  method BuildCompleteGraph(wordsByLength: map<nat, seq<string>>, ranks: map<string, int>)
    returns (graph: Graph, pruned: Result<seq<string>>, ghost lengths: seq<nat>)
    requires forall n, w :: n in wordsByLength && w in wordsByLength[n] ==> |w| == n
    ensures fresh(graph)
    ensures Text.Distinct(lengths) && forall n :: n in lengths ==> n in wordsByLength
    ensures pruned == PrunedLengths(lengths, wordsByLength, ranks)
    ensures pruned.Ok? ==> forall n :: n in wordsByLength ==> n in lengths
    ensures pruned.Ok? ==> CompleteGraph(graph.nodes, wordsByLength)
    ensures pruned.Ok? ==> forall w :: w in pruned.value ==>
      exists n :: n in wordsByLength && w in wordsByLength[n]
  {
    graph := new Graph();
    var acc: seq<string> := [];
    var remaining := wordsByLength.Keys;
    lengths := [];
    while remaining != {}
      invariant LengthsBuilt(wordsByLength, remaining, lengths, acc, ranks)
      invariant TreesBuilt(graph.nodes, wordsByLength, remaining)
      decreases remaining
    {
      var length :| length in remaining;
      ghost var before := graph.nodes;
      var r := BuildTree(graph, length, wordsByLength[length], ranks);
      if r.Err? {
        PrunedLengthsStep(lengths, wordsByLength, ranks, length);
        Text.DistinctAppend(lengths, length);
        return graph, r, lengths + [length];
      }
      LengthsStep(wordsByLength, remaining, lengths, acc, ranks, length, r.value);
      TreesStep(before, graph.nodes, wordsByLength, remaining, length);
      acc, lengths := acc + r.value, lengths + [length];
      remaining := remaining - {length};
    }
    TreesDone(graph.nodes, wordsByLength);
    pruned := Ok(acc);
  }
}
