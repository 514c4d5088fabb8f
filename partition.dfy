/** group_by_patterns (hangman.py:26-30): the words of a group split by the pattern one guessed
    letter would give each of them. The Python dict of lists is modelled as the order in which
    it yields its keys together with the map from key to list; the model fixes that order to
    first insertion. */
module Partition {
  import opened Patterns
  import Text

  /** A dict of lists keyed by pattern: `order` is the order in which the dict yields its keys. */
  datatype Groups = Groups(order: seq<string>, lists: map<string, seq<string>>)
  {
    ghost predicate Valid()
    {
      && (forall i, j :: 0 <= i < j < |order| ==> order[i] != order[j])
      && (forall k :: k in order <==> k in lists)
    }
  }

  /** One step of group_by_patterns: `groups[p].append(w)` on a defaultdict(list). */
  function Insert(g: Groups, p: string, w: string): Groups
  {
    if p in g.lists then Groups(g.order, g.lists[p := g.lists[p] + [w]])
    else Groups(g.order + [p], g.lists[p := [w]])
  }

  /** The dict group_by_patterns returns: the words inserted one by one. */
  function GroupsOf(words: seq<string>, ch: char): Groups
  {
    if words == [] then Groups([], map[])
    else Insert(GroupsOf(words[..|words| - 1], ch), MakePattern(words[|words| - 1], ch), words[|words| - 1])
  }

  /** Inserting keeps the keys distinct and in step with the map. */
  lemma InsertValid(g: Groups, p: string, w: string)
    requires g.Valid()
    ensures Insert(g, p, w).Valid()
  {
  }

  /** The dict is well formed, and empty exactly when there are no words. */
  lemma {:induction false} GroupsOfValid(words: seq<string>, ch: char)
    ensures GroupsOf(words, ch).Valid()
    ensures |GroupsOf(words, ch).order| == 0 <==> words == []
  {
    if words != [] {
      GroupsOfValid(words[..|words| - 1], ch);
      InsertValid(GroupsOf(words[..|words| - 1], ch), MakePattern(words[|words| - 1], ch), words[|words| - 1]);
    }
  }

  /** The words whose pattern is `k`, in input order. */
  function Select(words: seq<string>, ch: char, k: string): seq<string>
  {
    if words == [] then []
    else
      var w := words[|words| - 1];
      Select(words[..|words| - 1], ch, k) + (if MakePattern(w, ch) == k then [w] else [])
  }

  /** The keys of the dict are exactly the patterns of the input words. */
  lemma {:induction false} GroupKeysExact(words: seq<string>, ch: char)
    ensures forall k :: k in GroupsOf(words, ch).lists <==> exists w :: w in words && MakePattern(w, ch) == k
  {
    if words != [] {
      var init := words[..|words| - 1];
      GroupKeysExact(init, ch);
      assert words == init + [words[|words| - 1]];
    }
  }

  /** The list under each key holds exactly the input words with that pattern, in input order. */
  lemma {:induction false} GroupListsExact(words: seq<string>, ch: char)
    ensures forall k :: k in GroupsOf(words, ch).lists ==> GroupsOf(words, ch).lists[k] == Select(words, ch, k)
  {
    if words != [] {
      var init := words[..|words| - 1];
      GroupListsExact(init, ch);
      forall k | k in GroupsOf(words, ch).lists
        ensures GroupsOf(words, ch).lists[k] == Select(words, ch, k)
      {
        if k !in GroupsOf(init, ch).lists {
          SelectNone(init, ch, k);
        }
      }
    }
  }

  /** A word is selected under `k` exactly when it is an input word whose pattern is `k`. */
  lemma {:induction false} SelectMembers(words: seq<string>, ch: char, k: string)
    ensures forall w :: w in Select(words, ch, k) <==> w in words && MakePattern(w, ch) == k
  {
    if words != [] {
      var init := words[..|words| - 1];
      SelectMembers(init, ch, k);
      assert words == init + [words[|words| - 1]];
    }
  }

  lemma SelectNone(words: seq<string>, ch: char, k: string)
    requires k !in GroupsOf(words, ch).lists
    ensures Select(words, ch, k) == []
  {
    SelectMembers(words, ch, k);
    GroupKeysExact(words, ch);
  }

  /** Each list keeps the input order of its words. */
  lemma {:induction false} SelectKeepsOrder(words: seq<string>, ch: char, k: string)
    ensures Text.Subsequence(Select(words, ch, k), words)
  {
    if words != [] {
      var init := words[..|words| - 1];
      SelectKeepsOrder(init, ch, k);
      var s := Select(words, ch, k);
      if MakePattern(words[|words| - 1], ch) == k {
        assert s[..|s| - 1] == Select(init, ch, k);
      } else {
        assert s == Select(init, ch, k);
        Text.SubsequenceExtend(s, init, words[|words| - 1]);
      }
    }
  }

  /** The list under `k`, empty for a missing key. */
  function ListOf(lists: map<string, seq<string>>, k: string): seq<string>
  {
    if k in lists then lists[k] else []
  }

  /** The concatenation of the lists in dict order. */
  function Flatten(order: seq<string>, lists: map<string, seq<string>>): seq<string>
  {
    if order == [] then [] else Flatten(order[..|order| - 1], lists) + ListOf(lists, order[|order| - 1])
  }

  /** The sum of the list sizes in dict order. */
  function TotalSize(order: seq<string>, lists: map<string, seq<string>>): nat
  {
    if order == [] then 0 else TotalSize(order[..|order| - 1], lists) + |ListOf(lists, order[|order| - 1])|
  }

  /** Changing the list of a key that is not in `order` does not change the flattening. */
  lemma {:induction false} FlattenOther(order: seq<string>, lists: map<string, seq<string>>,
                                        k: string, v: seq<string>)
    requires forall q :: q in order ==> q in lists
    requires k !in order
    ensures Flatten(order, lists[k := v]) == Flatten(order, lists)
  {
    if order != [] {
      FlattenOther(order[..|order| - 1], lists, k, v);
    }
  }

  /** Appending `w` to the list of a key in `order` adds `w` once to the flattening. */
  lemma {:induction false} FlattenAppend(order: seq<string>, lists: map<string, seq<string>>,
                                         k: string, w: string)
    requires forall q :: q in order ==> q in lists
    requires k in order
    requires forall i, j :: 0 <= i < j < |order| ==> order[i] != order[j]
    ensures multiset(Flatten(order, lists[k := lists[k] + [w]])) ==
            multiset(Flatten(order, lists)) + multiset{w}
  {
    var init := order[..|order| - 1];
    var last := order[|order| - 1];
    if last == k {
      assert k !in init;
      FlattenOther(init, lists, k, lists[k] + [w]);
    } else {
      FlattenAppend(init, lists, k, w);
    }
  }

  /** The dict's lists taken one key further. */
  lemma FlattenPrefix(order: seq<string>, lists: map<string, seq<string>>, i: nat)
    requires i < |order|
    ensures Flatten(order[..i + 1], lists) == Flatten(order[..i], lists) + ListOf(lists, order[i])
  {
    assert order[..i + 1][..i] == order[..i];
  }

  /** One insertion adds one copy of the word to the flattening. */
  lemma FlattenInsert(g: Groups, p: string, w: string)
    requires g.Valid()
    ensures multiset(Flatten(Insert(g, p, w).order, Insert(g, p, w).lists)) ==
            multiset(Flatten(g.order, g.lists)) + multiset{w}
  {
    if p in g.lists {
      FlattenAppend(g.order, g.lists, p, w);
    } else {
      var g' := Insert(g, p, w);
      assert g'.order[..|g'.order| - 1] == g.order;
      FlattenOther(g.order, g.lists, p, [w]);
      assert Flatten(g'.order, g'.lists) == Flatten(g.order, g'.lists) + ListOf(g'.lists, p);
    }
  }

  /** group_by_patterns partitions its input: every word lands in exactly one list, so the
      lists, concatenated in dict order, are a permutation of the input. */
  lemma {:induction false} GroupsPartition(words: seq<string>, ch: char)
    ensures multiset(Flatten(GroupsOf(words, ch).order, GroupsOf(words, ch).lists)) == multiset(words)
  {
    if words != [] {
      var init := words[..|words| - 1];
      var w := words[|words| - 1];
      assert words == init + [w];
      GroupsPartition(init, ch);
      GroupsOfValid(init, ch);
      FlattenInsert(GroupsOf(init, ch), MakePattern(w, ch), w);
    }
  }

  lemma {:induction false} FlattenSize(order: seq<string>, lists: map<string, seq<string>>)
    requires forall k :: k in order ==> k in lists
    ensures |Flatten(order, lists)| == TotalSize(order, lists)
  {
    if order != [] {
      FlattenSize(order[..|order| - 1], lists);
    }
  }

  /** The group sizes sum to the number of input words. */
  lemma GroupSizesSum(words: seq<string>, ch: char)
    ensures TotalSize(GroupsOf(words, ch).order, GroupsOf(words, ch).lists) == |words|
  {
    var g := GroupsOf(words, ch);
    GroupsOfValid(words, ch);
    GroupsPartition(words, ch);
    FlattenSize(g.order, g.lists);
    assert |multiset(Flatten(g.order, g.lists))| == |multiset(words)|;
  }

  /** group_by_patterns: a defaultdict of lists filled by one pass over the words. */
  method GroupByPatterns(words: seq<string>, ch: char) returns (groups: Groups)
    ensures groups == GroupsOf(words, ch)
  {
    var order: seq<string> := [];
    var lists: map<string, seq<string>> := map[];
    for i := 0 to |words|
      invariant Groups(order, lists) == GroupsOf(words[..i], ch)
    {
      var w := words[i];
      var p := MakePattern(w, ch);
      assert words[..i + 1][..i] == words[..i];
      if p in lists {
        lists := lists[p := lists[p] + [w]];
      } else {
        order := order + [p];
        lists := lists[p := [w]];
      }
    }
    assert words[..|words|] == words;
    groups := Groups(order, lists);
  }
}
