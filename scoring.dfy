/** Letter choice in build_graph: score_grouping (hangman.py:39-44) and the selection loop
    (hangman.py:71-79) that keeps the smallest `(score, letter)` tuple. The global rank table
    `word_ranks`, a defaultdict(int), is passed in as a map whose missing keys rank 0. */
module Scoring {
  import opened Wrappers
  import opened Patterns
  import opened Partition
  import Text

  /** The tuple score_grouping returns. */
  datatype Score = Score(rankSum: int, largest: nat)

  function Rank(ranks: map<string, int>, w: string): int
  {
    if w in ranks then ranks[w] else 0
  }

  function RankSum(ws: seq<string>, ranks: map<string, int>): int
  {
    if ws == [] then 0 else RankSum(ws[..|ws| - 1], ranks) + Rank(ranks, ws[|ws| - 1])
  }

  /** The size of the largest of the first `n` lists in dict order. */
  function LargestUpTo(g: Groups, n: nat): (m: nat)
    requires g.Valid() && 0 < n <= |g.order|
    ensures exists i :: 0 <= i < n && |g.lists[g.order[i]]| == m
    ensures forall i :: 0 <= i < n ==> |g.lists[g.order[i]]| <= m
  {
    var here := |g.lists[g.order[n - 1]]|;
    if n == 1 then here
    else
      var rest := LargestUpTo(g, n - 1);
      if rest < here then here else rest
  }

  /** score_grouping: the rank sum of the list under the CURRENT pattern (0 when the dict has
      no such key), then the size of the largest list. */
  function ScoreGrouping(subgroups: Groups, pattern: string, ranks: map<string, int>): (s: Score)
    requires subgroups.Valid() && subgroups.order != []
    ensures s.rankSum == if pattern in subgroups.lists then RankSum(subgroups.lists[pattern], ranks) else 0
    ensures exists k :: k in subgroups.lists && |subgroups.lists[k]| == s.largest
    ensures forall k :: k in subgroups.lists ==> |subgroups.lists[k]| <= s.largest
  {
    var largest := LargestUpTo(subgroups, |subgroups.order|);
    assert forall k :: k in subgroups.lists ==> exists i :: 0 <= i < |subgroups.order| && subgroups.order[i] == k;
    Score(if pattern in subgroups.lists then RankSum(subgroups.lists[pattern], ranks) else 0, largest)
  }

  /** The score of guessing `ch` against the words. */
  function ScoreOf(words: seq<string>, ch: char, pattern: string, ranks: map<string, int>): Score
    requires words != []
  {
    GroupsOfValid(words, ch);
    ScoreGrouping(GroupsOf(words, ch), pattern, ranks)
  }

  /** Python's `<` on `(score, letter)` tuples, that is on `(rank sum, largest, letter)`. The
      subgroups, third in the source's tuple, are never compared: two candidates never share a
      letter. */
  predicate GuessLess(s1: Score, c1: char, s2: Score, c2: char)
  {
    s1.rankSum < s2.rankSum
    || (s1.rankSum == s2.rankSum && (s1.largest < s2.largest || (s1.largest == s2.largest && c1 < c2)))
  }

  /** GuessLess is Python's `<` on the tuples `(rank sum, largest, letter)`. */
  lemma GuessLessIsTupleOrder(s1: Score, c1: char, s2: Score, c2: char)
    ensures GuessLess(s1, c1, s2, c2) <==>
      Text.IntsLess([s1.rankSum, s1.largest, c1 as int], [s2.rankSum, s2.largest, c2 as int])
  {
    assert [s1.rankSum, s1.largest, c1 as int][1..] == [s1.largest, c1 as int];
    assert [s2.rankSum, s2.largest, c2 as int][1..] == [s2.largest, c2 as int];
    assert [s1.largest, c1 as int][1..] == [c1 as int] && [s2.largest, c2 as int][1..] == [c2 as int];
    assert [c1 as int][1..] == [] && [c2 as int][1..] == [];
    assert Text.IntsLess([c1 as int], [c2 as int]) <==> c1 < c2;
    assert Text.IntsLess([s1.largest, c1 as int], [s2.largest, c2 as int]) <==>
      s1.largest < s2.largest || (s1.largest == s2.largest && c1 < c2);
  }

  /** `ch` is the letter of `letters` with the smallest `(score, letter)`. */
  ghost predicate IsBestGuess(words: seq<string>, pattern: string, letters: set<char>, ch: char,
                              ranks: map<string, int>)
    requires words != []
  {
    && ch in letters
    && forall c :: c in letters && c != ch ==>
         GuessLess(ScoreOf(words, ch, pattern, ranks), ch, ScoreOf(words, c, pattern, ranks), c)
  }

  /** The best guess is unique, so the letter chosen does not depend on the order in which
      the set of letters is iterated. */
  lemma BestGuessUnique(words: seq<string>, pattern: string, letters: set<char>, c1: char, c2: char,
                        ranks: map<string, int>)
    requires words != []
    requires IsBestGuess(words, pattern, letters, c1, ranks)
    requires IsBestGuess(words, pattern, letters, c2, ranks)
    ensures c1 == c2
  {
  }

  lemma GuessLessTransitive(s1: Score, c1: char, s2: Score, c2: char, s3: Score, c3: char)
    requires GuessLess(s1, c1, s2, c2) && GuessLess(s2, c2, s3, c3)
    ensures GuessLess(s1, c1, s3, c3)
  {
  }

  /** Every non-empty set of letters has a best guess: the smallest tuple exists. */
  lemma {:induction false} BestGuessExists(words: seq<string>, pattern: string, letters: set<char>,
                                           ranks: map<string, int>)
    requires words != [] && letters != {}
    ensures exists ch :: IsBestGuess(words, pattern, letters, ch, ranks)
    decreases letters
  {
    var c :| c in letters;
    var rest := letters - {c};
    if rest == {} {
      assert forall x :: x in letters ==> x == c by {
        forall x | x in letters ensures x == c {
          assert x !in rest;
        }
      }
      assert IsBestGuess(words, pattern, letters, c, ranks);
    } else {
      BestGuessExists(words, pattern, rest, ranks);
      var b :| IsBestGuess(words, pattern, rest, b, ranks);
      var sc, sb := ScoreOf(words, c, pattern, ranks), ScoreOf(words, b, pattern, ranks);
      if GuessLess(sc, c, sb, b) {
        forall x | x in letters && x != c
          ensures GuessLess(sc, c, ScoreOf(words, x, pattern, ranks), x)
        {
          if x != b {
            GuessLessTransitive(sc, c, sb, b, ScoreOf(words, x, pattern, ranks), x);
          }
        }
        assert IsBestGuess(words, pattern, letters, c, ranks);
      } else {
        assert b != c;
        assert IsBestGuess(words, pattern, letters, b, ranks);
      }
    }
  }

  /** The selection loop of build_graph: try every remaining letter and keep the smallest
      `(score, letter, subgroups)` tuple; None when there is no letter left. */
  method SelectGuess(words: seq<string>, pattern: string, letters: set<char>, ranks: map<string, int>)
    returns (best: Option<(char, Groups)>)
    requires words != []
    ensures best.None? <==> letters == {}
    ensures best.Some? ==> IsBestGuess(words, pattern, letters, best.value.0, ranks)
    ensures best.Some? ==> best.value.1 == GroupsOf(words, best.value.0)
  {
    // best_guess: None until the first letter is scored, then (score, ch, subgroups)
    var found := false;
    var bestScore, bestCh, bestGroups := Score(0, 0), 'a', Groups([], map[]);
    var remaining := letters;
    while remaining != {}
      invariant remaining <= letters
      invariant !found <==> remaining == letters
      invariant found ==> bestCh in letters && bestCh !in remaining
      invariant found ==> bestGroups == GroupsOf(words, bestCh)
      invariant found ==> bestScore == ScoreOf(words, bestCh, pattern, ranks)
      invariant found ==> forall c :: c in letters && c !in remaining && c != bestCh ==>
        GuessLess(bestScore, bestCh, ScoreOf(words, c, pattern, ranks), c)
      decreases remaining
    {
      var ch :| ch in remaining;
      var subgroups := GroupByPatterns(words, ch);
      GroupsOfValid(words, ch);
      var score := ScoreGrouping(subgroups, pattern, ranks);
      assert score == ScoreOf(words, ch, pattern, ranks);
      ghost var before := letters - remaining;
      if !found || GuessLess(score, ch, bestScore, bestCh) {
        forall c | c in before && c != ch
          ensures GuessLess(score, ch, ScoreOf(words, c, pattern, ranks), c)
        {
          if c != bestCh {
            GuessLessTransitive(score, ch, bestScore, bestCh, ScoreOf(words, c, pattern, ranks), c);
          }
        }
        found, bestScore, bestCh, bestGroups := true, score, ch, subgroups;
      } else {
        assert ch != bestCh;
        assert GuessLess(bestScore, bestCh, score, ch);
      }
      remaining := remaining - {ch};
      assert letters - remaining == before + {ch};
    }
    best := if found then Some((bestCh, bestGroups)) else None;
  }

  /** The first score component looks up the current pattern among keys that are raw
      make_pattern results, not merged with it. Once the pattern shows a letter other than the
      candidate, no key can equal it, and the component is 0 whatever the words. */
  lemma RevealedPatternScoresZero(words: seq<string>, ch: char, pattern: string,
                                  ranks: map<string, int>, i: nat)
    requires words != []
    requires i < |pattern| && IsLetter(pattern[i]) && pattern[i] != ch
    ensures ScoreOf(words, ch, pattern, ranks).rankSum == 0
  {
    GroupKeysExact(words, ch);
  }

  /** The words of the group in which `ch` does not occur, in order. */
  function Missing(words: seq<string>, ch: char): seq<string>
  {
    if words == [] then []
    else Missing(words[..|words| - 1], ch) + (if ch in words[|words| - 1] then [] else [words[|words| - 1]])
  }

  /** While nothing is revealed (the pattern is blank, as at the root of a tree) the first
      component is what the source intends: the rank mass of the words the guess would miss. */
  lemma {:induction false} BlankScoreIsMissedMass(words: seq<string>, ch: char, n: nat,
                                                   ranks: map<string, int>)
    requires words != [] && IsLetter(ch)
    requires forall w :: w in words ==> |w| == n && forall j :: 0 <= j < n ==> IsLetter(w[j])
    ensures ScoreOf(words, ch, Blank(n), ranks).rankSum == RankSum(Missing(words, ch), ranks)
  {
    SelectBlankIsMissing(words, ch, n);
    GroupListsExact(words, ch);
    if Blank(n) !in GroupsOf(words, ch).lists {
      SelectNone(words, ch, Blank(n));
    }
  }

  lemma {:induction false} SelectBlankIsMissing(words: seq<string>, ch: char, n: nat)
    requires IsLetter(ch)
    requires forall w :: w in words ==> |w| == n && forall j :: 0 <= j < n ==> IsLetter(w[j])
    ensures Select(words, ch, Blank(n)) == Missing(words, ch)
  {
    if words != [] {
      var w := words[|words| - 1];
      SelectBlankIsMissing(words[..|words| - 1], ch, n);
      if ch in w {
        var j :| 0 <= j < |w| && w[j] == ch;
        assert MakePattern(w, ch)[j] != Blank(n)[j];
      } else {
        assert MakePattern(w, ch) == Blank(n);
      }
    }
  }
}
