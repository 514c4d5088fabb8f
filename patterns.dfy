/** The revealed-letter patterns of hangman.py: `make_pattern` shows one guessed letter of a
    word, `combine_patterns` merges a known pattern with a newly revealed one. */
module Patterns {

  const Placeholder: char := '_'

  /** The characters `make_pattern` hides until guessed: 'a' to 'z'. */
  predicate IsLetter(c: char) { 'a' <= c <= 'z' }

  predicate HasPlaceholder(p: string) { Placeholder in p }

  /** The pattern of a word of length n about which nothing is known. */
  function Blank(n: nat): string
  {
    seq(n, _ => Placeholder)
  }

  /** Every revealed position of `p` shows the character `word` has there. */
  ghost predicate Matches(word: string, p: string)
  {
    |p| == |word| && forall i :: 0 <= i < |p| && p[i] != Placeholder ==> p[i] == word[i]
  }

  /** The number of positions of `p` still hidden. */
  function Hidden(p: string): nat
  {
    if p == [] then 0 else Hidden(p[..|p| - 1]) + (if p[|p| - 1] == Placeholder then 1 else 0)
  }

  /** make_pattern: the guessed letter and every non-letter are shown, other letters hidden. */
  function MakePattern(word: string, ch: char): (p: string)
    ensures |p| == |word|
  {
    seq(|word|, i requires 0 <= i < |word| =>
      if word[i] == ch || word[i] < 'a' || word[i] > 'z' then word[i] else Placeholder)
  }

  /** combine_patterns: `zip` stops at the shorter pattern; a hidden position of `first`
      takes `second`'s character, a revealed one keeps its own. */
  function CombinePatterns(first: string, second: string): (r: string)
    ensures |r| == if |first| <= |second| then |first| else |second|
  {
    var n := if |first| <= |second| then |first| else |second|;
    seq(n, i requires 0 <= i < n => if first[i] == Placeholder then second[i] else first[i])
  }

  /** What `make_pattern` reveals: the pattern agrees with the word wherever it shows a
      character, shows every occurrence of the guessed letter and every non-letter, and hides
      exactly the other letters 'a'..'z'. */
  lemma MakePatternReveals(word: string, ch: char)
    ensures Matches(word, MakePattern(word, ch))
    ensures forall i :: 0 <= i < |word| && (word[i] == ch || !IsLetter(word[i])) ==>
      MakePattern(word, ch)[i] == word[i]
    ensures forall i :: 0 <= i < |word| && word[i] != ch && IsLetter(word[i]) ==>
      MakePattern(word, ch)[i] == Placeholder
  {
  }

  /** Merging keeps every revealed character of the known pattern and fills its hidden
      positions from the new one; so no revealed position is ever hidden again. */
  lemma CombineKeepsAndFills(first: string, second: string)
    requires |first| <= |second|
    ensures |CombinePatterns(first, second)| == |first|
    ensures forall i :: 0 <= i < |first| && first[i] != Placeholder ==>
      CombinePatterns(first, second)[i] == first[i]
    ensures forall i :: 0 <= i < |first| && first[i] == Placeholder ==>
      CombinePatterns(first, second)[i] == second[i]
  {
  }

  lemma CombineIdempotent(p: string)
    ensures CombinePatterns(p, p) == p
  {
  }

  lemma CombineAssociative(a: string, b: string, c: string)
    ensures CombinePatterns(CombinePatterns(a, b), c) == CombinePatterns(a, CombinePatterns(b, c))
  {
  }

  /** Merging never increases the number of hidden positions. */
  lemma {:induction false} CombineRevealsMore(first: string, second: string)
    requires |first| <= |second|
    ensures Hidden(CombinePatterns(first, second)) <= Hidden(first)
  {
    if first != [] {
      var n := |first| - 1;
      var r := CombinePatterns(first, second);
      assert r[..n] == CombinePatterns(first[..n], second);
      CombineRevealsMore(first[..n], second);
    }
  }

  /** Merging a word's own revealed pattern into a pattern it matches gives a pattern it
      still matches: the merged pattern never contradicts the word. */
  lemma MatchesPreserved(word: string, p: string, ch: char)
    requires Matches(word, p)
    ensures Matches(word, CombinePatterns(p, MakePattern(word, ch)))
  {
  }

  /** For a word that matches `p` and has letters wherever `p` is hidden, guessing `ch`
      leaves the pattern unchanged (a wrong guess) exactly when `ch` occurs at none of the
      hidden positions. */
  lemma NoProgressIffAbsent(word: string, p: string, ch: char)
    requires Matches(word, p)
    requires forall i :: 0 <= i < |p| && p[i] == Placeholder ==> IsLetter(word[i])
    ensures CombinePatterns(p, MakePattern(word, ch)) == p <==>
      forall i :: 0 <= i < |p| && p[i] == Placeholder ==> word[i] != ch
  {
    var r := CombinePatterns(p, MakePattern(word, ch));
    if r == p {
      forall i | 0 <= i < |p| && p[i] == Placeholder
        ensures word[i] != ch
      {
        assert r[i] == MakePattern(word, ch)[i];
      }
    } else {
      var i :| 0 <= i < |p| && r[i] != p[i];
      assert p[i] == Placeholder && word[i] == ch;
    }
  }
}
