# Hangman decision book, modelled in Dafny

This project models the core of a generator for a "choose your own adventure" Hangman book.

`hangman.py` builds a greedy decision graph for every word length:
- each node records the letter to guess next, the wrong-guess count so far, and the patterns that guess can produce;
- the graph is then numbered into the sections of a book.

`make_wordlist.py` prepares the word list:
- it sums yearly 1-gram counts per token and splits off the part of speech;
- it filters by popularity and word length;
- it keeps the n most popular words and normalises them.

## Modules

| module | file | models |
|---|---|---|
| `Wrappers` | wrappers.dfy | `Option`, and `Result` carrying the Python exception a crash would raise (KeyError, TypeError, ValueError, IndexError) |
| `Text` | text.dfy | Python's string order, order-preserving subsequences, sequences without repeats |
| `Patterns` | patterns.dfy | `make_pattern`, `combine_patterns` |
| `Partition` | partition.dfy | `group_by_patterns`. The dict of lists is a key order plus a map; the model fixes the order to first insertion. |
| `Scoring` | scoring.dfy | `score_grouping`, and the letter-selection loop of `build_graph` |
| `Sorting` | sorting.dfy | in-place `list.sort` as an insertion sort over an array |
| `GraphBuilder` | graph.dfy | `NodeKey`, `Node`, `build_graph`, `build_complete_graph`. The shared `graph` dict is the `nodes` field of a `Graph` object that the methods update in place. |
| `Book` | book.dfy | `Entry`, `Section`, `get_entry_value`, `produce_book_data` |
| `Wordlist` | wordlist.dfy | `sum_counts`, `get_words` on grouped rows, `filter_by_count`, `filter_by_length`, `most_popular`, `normalise_words` |

## Behaviour of the code as written

These points are stated as the code behaves.

- **Crashes become error values.**
  - `build_graph` on a group of zero words with letters left calls `max()` on an empty sequence: `Err(ValueError)`.
  - With no letters left it unpacks `best_guess = None`: `Err(TypeError)`.
  - There is no fallback to a ceiling leaf in either case.
- **The ceiling leaf keeps no word.** At the wrong-guess ceiling (6), `build_graph` writes the leaf `Node('', 6, [])` and returns every word of the group as pruned. There is no forced-guess word.
- **No compaction or augmentation.** hangman.py has no tree compaction and no second word pool.
- **`score_grouping` looks up the wrong key.**
  - Its first component looks up the merged pattern among dict keys that are raw `make_pattern` results.
  - Once the pattern shows a letter other than the candidate, the lookup always misses and the component is 0 (`Scoring.RevealedPatternScoresZero`).
  - At a blank pattern, for words made only of letters, it is the rank mass of the words the guess would miss (`Scoring.BlankScoreIsMissedMass`).
- **Ties between letters go to the smaller letter.** The selection compares `(score, letter, subgroups)` tuples, and two candidates never share a letter. So the best letter is unique and does not depend on set iteration order (`Scoring.BestGuessUnique`).
- **`Node.patterns` is overloaded.** It holds:
  - the merged child patterns in a guess node;
  - the group's single word in a one-word leaf;
  - nothing in a ceiling leaf.
- **`produce_book_data`:**
  - It shuffles and then sorts by `(num_guesses, len(pattern))`. The model takes the shuffled order as a parameter, `shuffled`: any order of the graph's keys. Every property is proved for all of them.
  - The first branch of `get_entry_value`, `if not subnode_key`, tests a two-field named tuple, which is never false, so that branch is never taken.
  - A fully revealed child gets the value `(subpattern,)`, a 1-tuple (`Revealed`).
  - A missing node raises KeyError; `Book.Resolvable` states exactly when none does.
- **`entries.sort()` on the pattern only.** It compares whole tuples, but the patterns within one section are distinct. So only the pattern decides, with None first.

## Model

| member | source | states |
|---|---|---|
| Patterns.MakePattern | hangman.py:20-21 | the pattern has the word's length |
| Patterns.MakePatternReveals | hangman.py:20-21 | the pattern agrees with the word where it shows a character; it shows the guessed letter and every non-letter, and hides exactly the other letters a-z |
| Patterns.CombinePatterns | hangman.py:23-24 | `zip` stops at the shorter pattern: the result has the smaller length |
| Patterns.CombineKeepsAndFills | hangman.py:23-24 | a revealed position of the known pattern is kept; a hidden one takes the new pattern's character |
| Patterns.CombineIdempotent | hangman.py:23-24 | merging a pattern with itself gives it back |
| Patterns.CombineAssociative | hangman.py:23-24 | merging is associative, so the order of merges along a path does not matter |
| Patterns.CombineRevealsMore | hangman.py:23-24 | merging never increases the number of hidden positions |
| Patterns.MatchesPreserved | hangman.py:85 | merging a word's own pattern into a pattern the word matches gives a pattern it still matches |
| Patterns.NoProgressIffAbsent | hangman.py:85-92 | the merged pattern equals the current one, which costs a wrong guess, exactly when the guessed letter is absent from the word's hidden positions |
| Partition.GroupByPatterns | hangman.py:26-30 | the loop of appends builds exactly the dict `GroupsOf(words, ch)` |
| Partition.GroupsOfValid | hangman.py:26-30 | the dict's keys are distinct and match its map; it is empty exactly when there are no words |
| Partition.GroupKeysExact | hangman.py:26-30 | the keys are exactly the patterns of the input words |
| Partition.GroupListsExact | hangman.py:26-30 | the list under each key is exactly the input words with that pattern, in input order |
| Partition.SelectMembers | hangman.py:29 | a word is in a key's list exactly when it is an input word with that pattern |
| Partition.SelectKeepsOrder | hangman.py:28-29 | each list keeps the input order |
| Partition.GroupsPartition | hangman.py:26-30 | the lists, concatenated in dict order, are a permutation of the input |
| Partition.GroupSizesSum | hangman.py:26-30 | the list sizes add up to the number of input words |
| Scoring.LargestUpTo | hangman.py:43 | the maximum of the list sizes: attained by some list and at least every size |
| Scoring.ScoreGrouping | hangman.py:39-44 | the rank sum of the list under the current pattern (0 without that key), then the size of the largest list |
| Scoring.SelectGuess | hangman.py:71-79 | None exactly when no letter is left; otherwise the letter with the smallest `(score, letter)` against every other letter, with that letter's dict |
| Scoring.BestGuessUnique | hangman.py:71-79 | the best letter is unique, whatever order the set of letters is iterated in |
| Scoring.GuessLessIsTupleOrder | hangman.py:74-78 | the comparison of candidates is Python's `<` on the integer tuples `(rank sum, largest list, letter)`, lexicographically |
| Scoring.GuessLessTransitive | hangman.py:78 | the tuple order used by the selection is transitive |
| Scoring.BestGuessExists | hangman.py:71-79 | a non-empty set of letters always has a best guess |
| Scoring.RevealedPatternScoresZero | hangman.py:39-44 | once the pattern shows a letter other than the candidate, the first score component is 0 for any words |
| Scoring.BlankScoreIsMissedMass | hangman.py:42 | at a blank pattern, for words made only of letters, the first component is the rank mass of the words the guess misses |
| Scoring.SelectBlankIsMissing | hangman.py:42 | at a blank pattern, the list looked up is exactly the words without the letter |
| Sorting.SortInPlace | hangman.py:143 | the array ends sorted by the key order and is a permutation of its old contents |
| Sorting.InsertInto | hangman.py:143 | one insertion step: a sorted prefix one element longer, same multiset, the rest of the array unchanged |
| GraphBuilder.Merged | hangman.py:82 | one merged pattern per dict key, in key order |
| GraphBuilder.WrongAfter | hangman.py:92 | the wrong count grows by exactly one when the merged pattern equals the current one, and otherwise stays |
| GraphBuilder.PrunedGuessCase | hangman.py:70-93 | in the guess case, build_graph's result is the concatenated results of the subgroups under the best letter, in dict order, without that letter |
| GraphBuilder.PrunedGroupsStep | hangman.py:84-93 | the loop's result one subgroup further is the result so far followed by that subgroup's, or that subgroup's exception |
| GraphBuilder.PrunedGroupsErr | hangman.py:84-93 | once a subgroup raises, the whole loop raises the same exception |
| GraphBuilder.PrunedFromWords | hangman.py:61-93 | every word reported pruned comes from the group, no more often than it occurs there |
| GraphBuilder.Resolved | hangman.py:61-93 | no word is lost or duplicated: the words reported pruned and the words the tree names (in single-word leaves or as fully revealed patterns) together are exactly the group, as a multiset |
| GraphBuilder.ResolvedGroups | hangman.py:83-93 | the same over the subgroups: their pruned and named words together are the concatenated subgroups |
| GraphBuilder.GroupKeyLengths | hangman.py:73 | every key of the dict has the words' length; every listed word is an input word |
| GraphBuilder.Graph.constructor | hangman.py:97 | the dict starts empty |
| GraphBuilder.BuildGraph | hangman.py:47-93 | see below |
| GraphBuilder.BuildSubgroups | hangman.py:83-93 | all subgroups are built in dict order: see below |
| GraphBuilder.BuildChild | hangman.py:85-92 | one recursive call: its result is what build_graph specifies for the merged pattern, the letters without `ch`, and one more wrong guess exactly when the merged pattern is unchanged; on success the child's node holds that wrong count and the dict only grew, with nodes guessing only letters other than `ch` |
| GraphBuilder.SubgroupsStep | hangman.py:84-92 | building one more subgroup keeps the loop's frame and adds that child's node |
| GraphBuilder.ExtendsBelowDone | hangman.py:82-93 | once every hidden-letter child of the new guess node is built, the whole call only added nodes that are well formed |
| GraphBuilder.BlankHasPlaceholder | hangman.py:100 | the blank pattern `u'_' * length` has a placeholder exactly when the length is positive |
| GraphBuilder.BuildTree | hangman.py:99-100 | one tree: the result build_graph specifies for the blank pattern, the whole alphabet and no guesses; the pruned words are input words; the dict only grew, and a positive length gets its root |
| GraphBuilder.TreesStep | hangman.py:99-100 | building one more length keeps every node well formed and adds that length's root |
| GraphBuilder.PrunedLengthsStep | hangman.py:98-100 | the result one length further is the result so far followed by that tree's, or that tree's exception |
| GraphBuilder.LengthsStep | hangman.py:98-100 | a tree built without an exception appends its pruned words, all input words, to the result |
| GraphBuilder.TreesDone | hangman.py:96-101 | once every length is built, each node has at most 6 wrong guesses, its children, a letter of the alphabet as guess and its root |
| GraphBuilder.BuildCompleteGraph | hangman.py:96-101 | see below |
| Book.InBook | hangman.py:139 | a node with no guesses is always kept; any other node is kept exactly when it has a guess |
| Book.BookKeys | hangman.py:139 | keeps exactly the guess nodes and the nodes with no guesses, and keeps them free of repeats |
| Book.KeyLeIsTupleOrder | hangman.py:143 | the sort order is Python's `<=` on the tuples `(num_guesses, len(pattern))` |
| Book.KeyOrderIsTotalPreorder | hangman.py:143 | the sort key `(num_guesses, len(pattern))` is a total preorder |
| Book.EntryLeIsPythonOrder | hangman.py:164 | the entry without a pattern (None) sorts first; two patterns compare by Python's string order on character codes |
| Book.EntryOrderIsTotalPreorder | hangman.py:164 | None first, then string order, is a total preorder on entries |
| Book.Number | hangman.py:146-149 | `node_map` numbers exactly the listed nodes |
| Book.NumberPositions | hangman.py:146-149 | without repeats, the node at position i is numbered i + 1 |
| Book.NumberedAt | hangman.py:149 | a numbered node sits at the position its number names |
| Book.NumberIsNumbering | hangman.py:146-149 | without repeats, `node_map` sends every node to its 1-based position |
| Book.GetEntryValue | hangman.py:104-115 | Ok exactly when the node exists and is a leaf or numbered; a leaf gives `(True, None)` or `(True, patterns[0])`; a guess node gives `(False, its number)` |
| Book.EntryOf | hangman.py:157-163 | pattern None exactly for the no-progress child; a fully revealed child names itself; a section reference points to the numbered guess node one guess further on; a KeyError comes only from a lookup |
| Book.EntriesOf | hangman.py:154-163 | Ok exactly when every child's entry is; one entry per child pattern, in order |
| Book.EntriesOkIffResolvable | hangman.py:156-163 | with every guess node numbered, a section's entries build exactly when its looked-up children exist |
| Book.LengthMap | hangman.py:168 | Ok exactly when every length has its numbered root; the keys are the graph's pattern lengths; each maps to its root's number |
| Book.LengthMapPointsToRoots | hangman.py:168 | each length leads to the section of its blank-pattern root |
| Book.PatternLengths | hangman.py:168 | exactly the lengths of the graph's patterns |
| Book.LengthMapNumbered | hangman.py:168 | each length leads to the position of its blank-pattern root |
| Book.ResolvableIffBuilt | hangman.py:152-168 | the sections and the length map build exactly when the graph is resolvable |
| Book.ForwardReference | hangman.py:142-163 | an entry's section reference points strictly forward, to the node one guess further on with the entry's outcome pattern |
| Book.ForwardTarget | hangman.py:157-163 | a section reference carries the position of the node one guess further on with the entry's outcome pattern |
| Book.SortedGuessesLater | hangman.py:142-143 | after the sort, a node with more guesses comes later |
| Book.SectionsPointForward | hangman.py:142-165 | every section reference in the book points forward |
| Book.SectionEntries | hangman.py:154-164 | the entries build exactly when `EntriesOf` does; they come out sorted, and are a permutation of the built entries |
| Book.SortedBookKeys | hangman.py:139-143 | the kept nodes without repeats, sorted by `(num_guesses, len(pattern))` |
| Book.SectionsStep | hangman.py:165 | appending the next section extends the book built so far |
| Book.BuildSections | hangman.py:152-165 | Ok exactly when every kept node's children resolve; section i is numbered i + 1, with the node's pattern, wrong count and guess, and its sorted entries |
| Book.ProduceBookData | hangman.py:118-169 | see below |
| Text.StrLe | hangman.py:164 | Python's `<=` on strings: the character codes compared lexicographically, a proper prefix first |
| Text.StrLeTotal | hangman.py:164 | Python's string order is total |
| Text.StrLeTransitive | hangman.py:164 | and transitive |
| Text.StrLeAntisymmetric | hangman.py:164 | and antisymmetric |
| Text.DistinctPermutation | hangman.py:141-143 | shuffling and sorting introduce no repeats |
| Wordlist.SumCounts | make_wordlist.py:40-46 | the loop computes `CountInWindow`: the `times` of the rows whose year passes both bounds |
| Wordlist.CountConcat | make_wordlist.py:40-46 | the totals of consecutive runs of rows add up |
| Wordlist.ZeroBoundIgnored | make_wordlist.py:44 | a year bound of 0 restricts nothing, like None |
| Wordlist.CountWithinTotal | make_wordlist.py:40-46 | with non-negative counts, the windowed total lies between 0 and the total over all years |
| Wordlist.SplitToken | make_wordlist.py:55 | the word has no '_'; with a '_' the token is word + '_' + part, otherwise it is the word and the part is empty |
| Wordlist.GetWords | make_wordlist.py:49-60 | the loop yields exactly `WordsOf`, in group order |
| Wordlist.WordsOfMembers | make_wordlist.py:55-60 | a pair is yielded exactly when some token yields it: split word, part passing the filter, positive total; every yielded count is positive |
| Wordlist.FilterByCount | make_wordlist.py:63-64 | keeps exactly the pairs counted at least `min_popularity` times, each as often as it occurs in the input |
| Wordlist.FilterByCountKeepsOrder | make_wordlist.py:63-64 | what is kept is a subsequence of the input |
| Wordlist.FilterByLength | make_wordlist.py:67-70 | keeps exactly the pairs whose word length passes both bounds (0 or None meaning unbounded), each as often as it occurs in the input |
| Wordlist.FilterByLengthKeepsOrder | make_wordlist.py:67-70 | what is kept is a subsequence of the input |
| Wordlist.FiltersCommute | make_wordlist.py:96-99 | the two filters commute |
| Wordlist.PairLe | make_wordlist.py:83 | Python's `<=` on `(count, word)`: the count first, then the word's character codes, lexicographically |
| Wordlist.PairGe | make_wordlist.py:85 | the order of `sort(reverse=True)`: the same comparison with the pairs swapped |
| Wordlist.PairOrdersAreTotalPreorders | make_wordlist.py:83-85 | the tuple order and its reverse are total preorders |
| Wordlist.InsertAscending | make_wordlist.py:82 | a push keeps the heap ascending and adds the one word |
| Wordlist.PushStep | make_wordlist.py:81-82 | a push while the heap is not full keeps the heap invariant |
| Wordlist.PushPopStep | make_wordlist.py:83-84 | replacing a smaller minimum keeps the heap invariant |
| Wordlist.PoppedBelowKept | make_wordlist.py:83-84 | after `heappushpop`, every word dropped so far is at most every word kept |
| Wordlist.SkipStep | make_wordlist.py:83 | skipping a word no larger than the minimum keeps the heap invariant |
| Wordlist.Offer | make_wordlist.py:81-84 | one turn: IndexError exactly when `n <= 0`, otherwise the heap invariant one word further |
| Wordlist.FillHeap | make_wordlist.py:79-84 | IndexError exactly when `n <= 0` and there are words; otherwise the heap holds `min(n, len)` of the words, in ascending order, and every dropped word is at most every kept one |
| Wordlist.MostPopular | make_wordlist.py:78-86 | see below |
| Wordlist.KeptFinal | make_wordlist.py:85-86 | the final list is part of the input, and no word left out is larger than a word kept |
| Wordlist.StripStart | make_wordlist.py:91 | removes exactly the leading whitespace |
| Wordlist.StripEnd | make_wordlist.py:91 | removes exactly the trailing whitespace |
| Wordlist.StripExact | make_wordlist.py:91 | `strip()` leaves the part of the word between whitespace-only ends, and it neither starts nor ends with whitespace |
| Wordlist.Strip | make_wordlist.py:91 | `strip()` never lengthens the word, and the result neither starts nor ends with whitespace |
| Wordlist.Lower | make_wordlist.py:91 | `lower()` keeps the length, turns each capital A-Z into its lower-case letter (code + 32), changes no other character and keeps whitespace as whitespace |
| Wordlist.LowerFixed | make_wordlist.py:91 | a word without capitals is its own lower case |
| Wordlist.Normalise | make_wordlist.py:91 | a normalised word has no capital and no whitespace at either end |
| Wordlist.NormaliseIdempotent | make_wordlist.py:91 | normalising twice is normalising once |
| Wordlist.NormaliseWords | make_wordlist.py:89-91 | one pair per input pair, in order, with its count and its word stripped and lower-cased |
| Wordlist.NormaliseWordsIdempotent | make_wordlist.py:89-91 | `normalise_words` keeps the counts and the order, and applied to its own output changes nothing |

The "see below" rows state the following.

**`GraphBuilder.BuildGraph`** (one recursive call of `build_graph`):
- Its result is exactly `Pruned`, a specification function that follows build_graph's branches without the dict:
  - a fully revealed pattern returns `[]` and writes nothing;
  - at the ceiling it writes `Node('', 6, [])` and returns all the words;
  - a single word is written into a leaf and `[]` is returned;
  - no letters left gives TypeError, and no words gives ValueError;
  - otherwise the best guess `ch` splits the words, and the subgroups' results are concatenated in dict order. Each subgroup uses the merged pattern and the letters without `ch`, and adds one wrong guess exactly when the merged pattern is unchanged.
- In the guess case, the node at `(guesses, pattern)` is `Node(ch, wrong, merged child patterns)`.
- On success the group's node records `wrong`. The dict only grew. Every new node sits at `guesses` or more, has the pattern's length and at most 6 wrong guesses, and guesses a letter it was given. Every hidden-letter child of a guess node is present.
- What `Pruned` returns is tied to the words by `Resolved`: the pruned words and the words the tree names make up the group exactly.

**`GraphBuilder.BuildSubgroups`**: the loop over the subgroups in dict order. Its result is exactly the concatenated `Pruned` results of the subgroups, or the first exception. Once all are built, every hidden-letter child of the new node is present.

**`GraphBuilder.BuildCompleteGraph`**: one tree per word length, built from the blank pattern, into one dict. The lengths are taken in some order without repeats, and the result is exactly the `Pruned` results of their trees concatenated in that order, or the first exception. On success:
- every length is built;
- every node has at most 6 wrong guesses, its children, and a letter of the alphabet as guess;
- every length has its root;
- every pruned word is an input word.

**`Book.ProduceBookData`**:
- The numbered order holds exactly the guess nodes and the nodes with no guesses, without repeats, sorted by `(num_guesses, len(pattern))`.
- It is Ok exactly when the graph is resolvable.
- Section i is node i numbered i + 1, with its entries sorted.
- Every section reference points strictly forward, to the node one guess further on with that outcome pattern.
- The length map holds every pattern length of the graph and leads to the section of its blank root.

**`Wordlist.MostPopular`**:
- IndexError exactly when `n <= 0` and there are words.
- Otherwise:
  - `min(n, len(words))` pairs, sorted largest first;
  - a sub-multiset of the input;
  - no pair left out is larger than a pair returned.

## Left out

- The file loading of hangman.py at lines 10-17. The rank table `word_ranks` and the words grouped by length are parameters (`ranks`, `wordsByLength`).
- `book()`, the jinja2 rendering and logging, and `hangman()`, the interactive `raw_input` loop. These are I/O. `hangman()` also reads an undefined global.
- `random.shuffle`. The shuffled order is the parameter `shuffled`, and every property is proved for all orders.
- The hash iteration order of Python 2 dicts and sets:
  - `group_by_patterns` uses first-insertion order;
  - the letter set and `words_by_length` are iterated in an arbitrary order chosen by `:|`;
  - `length_map`, a list of pairs in set order, is a map.
- build_complete_graph reads the global `words_by_length` and ignores its argument. The model passes the grouping in.
- The ordering of the tuples inside `entries.sort()` beyond the pattern. The patterns of one section are distinct, so the other fields are never compared.
- `heapq`'s internal layout. The heap is kept as an ascending list, which is one layout `heapq` allows. Its minimum and its contents are those of the real heap.
- `read_file`, `read_dataset` (gzip and csv), argparse, logging, and the printing in `main` of make_wordlist.py. These are I/O.
- `filter_by_re`. It is a thin wrapper over the `re` library.
- `itertools.groupby`. `get_words` takes rows already grouped by token, with `int()` already applied to the year and count fields. Malformed rows and their exceptions are not modelled.
- Unicode. Strings are sequences of characters. `strip()` and `lower()` are the byte-string versions: ASCII whitespace and A-Z.
- GraphBuilder.BuildGraph: requires every word to have the pattern's length. The source never passes anything else, and `combine_patterns` would truncate the pattern otherwise.
- GraphBuilder.BuildGraph: models one source function as three methods. `BuildSubgroups` is its loop over the subgroups, and `BuildChild` is one recursive call.
- Sorting.SortInPlace: does not state that the sort is stable. `nodes.sort` is stable, and so is the insertion sort, but the properties of the book do not depend on it.
- Book.ProduceBookData: does not state which order equal-key nodes take after the sort. The shuffle decides that order, and no property depends on it.
- The model contains no proof that a graph from build_complete_graph is always resolvable. Such a graph can in fact fail: a single word of its length that contains '_' makes `produce_book_data` look up a node that does not exist.
