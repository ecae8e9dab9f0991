/**
 The word filter `filter_words`: the filter file's lines, each with trailing
 whitespace removed by `str.rstrip()`, form a set; the result keeps the
 counter's items whose word is not in that set, with their counts and in
 their order. Words are compared exactly as they are, without case folding.
 */
module WordFilter {
  import opened Chars
  import opened Dict
  import opened Counter

  /** `str.rstrip()`: the longest prefix that does not end in whitespace. */
  function RStrip(s: string): (r: string)
    ensures r <= s
    ensures r == [] || !IsSpace(r[|r| - 1])
    ensures forall i :: |r| <= i < |s| ==> IsSpace(s[i])
    decreases |s|
  {
    if s != [] && IsSpace(s[|s| - 1]) then RStrip(s[..|s| - 1]) else s
  }

  /** `{word.rstrip() for word in file.readlines()}`. */
  function FilterSet(filterLines: seq<string>): (f: set<string>)
    ensures forall l :: l in filterLines ==> RStrip(l) in f
    ensures forall w :: w in f ==> exists l :: l in filterLines && w == RStrip(l)
  {
    set l | l in filterLines :: RStrip(l)
  }

  /** `{w: c for w, c in wordlist.items() if w not in filter_words}`: the items whose word is not excluded, in their order. */
  function Remove(d: Items, excluded: set<string>): (r: Items)
    ensures |r| <= |d|
    decreases |d|
  {
    if d == [] then []
    else
      var n := |d| - 1;
      Remove(d[..n], excluded) + (if d[n].word in excluded then [] else [d[n]])
  }

  /** The core of `filter_words`, given the lines of the filter file. */
  function FilterWords(filterLines: seq<string>, d: Items): (r: Items)
    ensures forall e :: e in r <==> e in d && forall l :: l in filterLines ==> RStrip(l) != e.word
  {
    RemoveMembers(d, FilterSet(filterLines));
    Remove(d, FilterSet(filterLines))
  }

  /** The result holds exactly the items of `d` whose word is not excluded. */
  lemma {:induction false} RemoveMembers(d: Items, excluded: set<string>)
    ensures forall e :: e in Remove(d, excluded) <==> e in d && e.word !in excluded
    decreases |d|
  {
    if d != [] {
      var n := |d| - 1;
      RemoveMembers(d[..n], excluded);
      assert d == d[..n] + [d[n]];
    }
  }

  /** The position in `d` of the `i`-th item kept. */
  function Origin(d: Items, excluded: set<string>, i: nat): (k: nat)
    requires i < |Remove(d, excluded)|
    ensures k < |d| && d[k] == Remove(d, excluded)[i]
    decreases |d|
  {
    var n := |d| - 1;
    if i < |Remove(d[..n], excluded)| then Origin(d[..n], excluded, i) else n
  }

  /** The filter keeps the relative order of the items it keeps: later items of the result come from later items of `d`. */
  lemma {:induction false} RemovePreservesOrder(d: Items, excluded: set<string>, i: nat, j: nat)
    requires i < j < |Remove(d, excluded)|
    ensures Origin(d, excluded, i) < Origin(d, excluded, j)
    decreases |d|
  {
    var n := |d| - 1;
    if j < |Remove(d[..n], excluded)| {
      RemovePreservesOrder(d[..n], excluded, i, j);
    }
  }

  /** Removing excluded words keeps the remaining keys distinct: the keys that remain are the old keys minus the excluded ones, each with its old count. */
  lemma RemoveSpec(d: Items, excluded: set<string>)
    requires DistinctKeys(d)
    ensures DistinctKeys(Remove(d, excluded))
    ensures forall w :: HasKey(Remove(d, excluded), w) <==> HasKey(d, w) && w !in excluded
    ensures forall w :: Get(Remove(d, excluded), w, 0) == if w in excluded then 0 else Get(d, w, 0)
  {
    var r := Remove(d, excluded);
    RemoveMembers(d, excluded);
    forall i, j | 0 <= i < j < |r| ensures r[i].word != r[j].word {
      RemovePreservesOrder(d, excluded, i, j);
    }
    forall w ensures HasKey(r, w) <==> HasKey(d, w) && w !in excluded {
      HasKeyAt(r, w);
      HasKeyAt(d, w);
      if HasKey(r, w) {
        assert r[Find(r, w)] in r;
      }
      if HasKey(d, w) && w !in excluded {
        assert d[Find(d, w)] in d;
      }
    }
    forall w ensures Get(r, w, 0) == if w in excluded then 0 else Get(d, w, 0) {
      if HasKey(r, w) {
        var k := Origin(d, excluded, Find(r, w));
        FindUnique(d, k);
      }
    }
  }

  /** Removing words from a record of counts leaves a record of counts of the same words: retained counts are unchanged and the first-occurrence order is kept. */
  lemma RemoveKeepsCounts(ws: seq<string>, d: Items, excluded: set<string>)
    requires CountsOf(ws, d)
    ensures CountsOf(ws, Remove(d, excluded))
  {
    var r := Remove(d, excluded);
    RemoveSpec(d, excluded);
    forall i | 0 <= i < |r| ensures r[i].word in ws && r[i].count == multiset(ws)[r[i].word] {
      var k := Origin(d, excluded, i);
    }
    forall i, j | 0 <= i < j < |r| ensures FirstIndex(ws, r[i].word) < FirstIndex(ws, r[j].word) {
      RemovePreservesOrder(d, excluded, i, j);
    }
  }

  /** `filter_words`: the keys of the result are the counter's keys minus the stripped filter lines, and every kept word keeps its count. */
  lemma FilterWordsSpec(filterLines: seq<string>, d: Items)
    requires DistinctKeys(d)
    ensures DistinctKeys(FilterWords(filterLines, d))
    ensures forall w :: HasKey(FilterWords(filterLines, d), w) <==>
      HasKey(d, w) && forall l :: l in filterLines ==> RStrip(l) != w
    ensures forall w :: HasKey(FilterWords(filterLines, d), w) ==> Get(FilterWords(filterLines, d), w, 0) == Get(d, w, 0)
  {
    RemoveSpec(d, FilterSet(filterLines));
  }

  /** Filter entries are compared verbatim: a filter line `The` does not remove the token `the`. */
  lemma FilterIsCaseSensitive()
    ensures FilterWords(["The\n"], [Entry("the", 3)]) == [Entry("the", 3)]
  {
    assert RStrip("The\n") == "The" by {
      assert "The\n"[..3] == "The";
    }
    assert FilterSet(["The\n"]) == {"The"};
    assert [Entry("the", 3)][..0] == [];
  }

  /** Trailing blanks of a filter line are stripped along with its newline, so the line `the  ` removes the token `the`. */
  lemma FilterStripsTrailingBlanks()
    ensures FilterWords(["the  \n"], [Entry("the", 3)]) == []
  {
    assert RStrip("the  \n") == "the" by {
      assert "the  \n"[..5] == "the  ";
      assert "the  "[..4] == "the ";
      assert "the "[..3] == "the";
    }
    assert FilterSet(["the  \n"]) == {"the"};
    assert [Entry("the", 3)][..0] == [];
  }
}
