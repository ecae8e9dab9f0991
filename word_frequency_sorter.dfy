/**
 The main script `word_frequency_sorter.py`: the lines of the input file go
 through the line filter and the tokenizer, `collections.Counter` counts the
 tokens, the optional word filter removes the words listed in the filter
 file, and `print_result` prints the remaining words from the most frequent
 to the least frequent, one per line.
 */
module WordFrequencySorter {
  import opened Dict
  import opened Counter
  import opened Ranker
  import opened LineFilter
  import opened Tokenizer
  import opened WordFilter

  datatype Option<T> = None | Some(value: T)

  /**
   The dict `process_file` hands to `print_result`: the counts of the tokens,
   filtered when the lines of a filter file are given (the `--filter` option).
   */
  function Frequencies(lines: seq<string>, filterLines: Option<seq<string>>): (d: Items)
    ensures CountsOf(GenerateWords(GenerateLines(lines)), d)
  {
    var words := GenerateWords(GenerateLines(lines));
    var counts := Count(words);
    CountIsFrequencyTable(words);
    match filterLines
    case None => counts
    case Some(fl) => RemoveKeepsCounts(words, counts, FilterSet(fl)); FilterWords(fl, counts)
  }

  /** The words `process_file` prints, in the order it prints them. */
  function ProcessFile(lines: seq<string>, filterLines: Option<seq<string>>): (out: seq<string>)
    ensures forall i, j :: 0 <= i < j < |out| ==> out[i] != out[j]
  {
    RankedWordsSpec(GenerateWords(GenerateLines(lines)), Frequencies(lines, filterLines));
    RankedWords(Frequencies(lines, filterLines))
  }

  /** `w` is one of the stripped lines of the filter file, when there is one. */
  predicate Excluded(filterLines: Option<seq<string>>, w: string) {
    filterLines.Some? && w in FilterSet(filterLines.value)
  }

  /** The dict holds the counts of the tokens, and its keys are the tokens that the filter does not exclude. */
  lemma FrequenciesSpec(lines: seq<string>, filterLines: Option<seq<string>>)
    ensures CountsOf(GenerateWords(GenerateLines(lines)), Frequencies(lines, filterLines))
    ensures forall w :: HasKey(Frequencies(lines, filterLines), w) <==>
      w in GenerateWords(GenerateLines(lines)) && !Excluded(filterLines, w)
  {
    var words := GenerateWords(GenerateLines(lines));
    var counts := Count(words);
    var d := Frequencies(lines, filterLines);
    CountIsFrequencyTable(words);
    forall w | HasKey(counts, w) ensures w in words {
      assert counts[Find(counts, w)].word == w;
    }
    if filterLines.Some? {
      RemoveKeepsCounts(words, counts, FilterSet(filterLines.value));
      RemoveSpec(counts, FilterSet(filterLines.value));
    }
  }

  /**
   The printed words of a record of counts `d` of `ws`: each key of `d` once,
   by number of occurrences in `ws` from highest to lowest, and words with
   equal counts in the order of their first occurrence in `ws`.
   */
  lemma RankedWordsSpec(ws: seq<string>, d: Items)
    requires CountsOf(ws, d)
    ensures forall w :: w in RankedWords(d) <==> HasKey(d, w)
    ensures forall i :: 0 <= i < |RankedWords(d)| ==> RankedWords(d)[i] in ws
    ensures forall i, j :: 0 <= i < j < |RankedWords(d)| ==> RankedWords(d)[i] != RankedWords(d)[j]
    ensures forall i, j :: 0 <= i < j < |RankedWords(d)| ==>
      multiset(ws)[RankedWords(d)[i]] >= multiset(ws)[RankedWords(d)[j]]
    ensures forall i, j :: 0 <= i < j < |RankedWords(d)| && multiset(ws)[RankedWords(d)[i]] == multiset(ws)[RankedWords(d)[j]] ==>
      FirstIndex(ws, RankedWords(d)[i]) < FirstIndex(ws, RankedWords(d)[j])
  {
    var out := RankedWords(d);
    var r := Rank(d);
    assert forall i :: 0 <= i < |r| ==> out[i] == r[i].word;
    RankOfCounts(ws, d);
    forall w ensures w in out <==> HasKey(d, w) {
      HasKeyAt(d, w);
      if w in out {
        var i :| 0 <= i < |out| && out[i] == w;
        assert r[i] in d;
      }
      if HasKey(d, w) {
        var k := Find(d, w);
        assert d[k] in r;
      }
    }
  }

  /**
   `process_file`: the printed words are exactly the tokens of the text that
   the filter does not exclude, each printed once, from the most frequent to
   the least frequent, words of equal frequency in the order they first
   occur in the text; every printed word is a lower-case token.
   */
  lemma ProcessFileSpec(lines: seq<string>, filterLines: Option<seq<string>>)
    ensures var words := GenerateWords(GenerateLines(lines));
      var out := ProcessFile(lines, filterLines);
      && (forall w :: w in out <==> w in words && !Excluded(filterLines, w))
      && (forall w :: w in out ==> IsToken(w))
      && (forall i, j :: 0 <= i < j < |out| ==> out[i] != out[j])
      && (forall i, j :: 0 <= i < j < |out| ==> multiset(words)[out[i]] >= multiset(words)[out[j]])
      && (forall i, j :: 0 <= i < j < |out| && multiset(words)[out[i]] == multiset(words)[out[j]] ==>
            out[i] in words && out[j] in words && FirstIndex(words, out[i]) < FirstIndex(words, out[j]))
  {
    var words := GenerateWords(GenerateLines(lines));
    FrequenciesSpec(lines, filterLines);
    RankedWordsSpec(words, Frequencies(lines, filterLines));
  }

  /** When the line filter keeps no line, nothing is printed, with or without a filter file. */
  lemma NoKeptLinesPrintsNothing(lines: seq<string>, filterLines: Option<seq<string>>)
    requires GenerateLines(lines) == []
    ensures ProcessFile(lines, filterLines) == []
  {
    assert GenerateWords([]) == [];
    assert Count([]) == [];
    if filterLines.Some? {
      assert FilterWords(filterLines.value, []) == [];
    }
  }

  /** A text whose only line is made of digits and symbols, such as `!!! 123 --- ???`, prints nothing. */
  lemma SymbolTextPrintsNothing()
    ensures ProcessFile(["!!! 123 --- ???\n"], None) == []
  {
    GenerateLinesDropsSymbolText();
    NoKeptLinesPrintsNothing(["!!! 123 --- ???\n"], None);
  }
}
