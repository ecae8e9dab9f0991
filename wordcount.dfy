/**
 The earlier script `wordcount.py`: the same line filter and tokenizer, a
 counting loop that updates a dict in place with `setdefault` and `+= 1`,
 and a report of `count word` pairs from the most frequent word to the least
 frequent.
 */
module WordCount {
  import opened Dict
  import opened Counter
  import opened Ranker
  import opened LineFilter
  import opened Tokenizer

  /** One pass of the loop body, `count.setdefault(word, 0)` then `count[word] += 1`, is Counter's tally step. */
  lemma SetDefaultThenIncrement(d: Items, w: string)
    ensures HasKey(SetDefault(d, w, 0), w)
    ensures Put(SetDefault(d, w, 0), w, Lookup(SetDefault(d, w, 0), w) + 1) == Tally(d, w)
  {
    var s := SetDefault(d, w, 0);
    if !HasKey(d, w) {
      PutAppends(d, w, 0);
      PutAppends(d, w, 1);
      var i := Find(s, w);
      assert s[|d|].word == w;
      assert i == |d|;
    }
  }

  /** The loop body at `words[k]` turns the counts of the words before `k` into the counts of the words up to `k`. */
  lemma LoopStep(words: seq<string>, k: nat, count: Items)
    requires k < |words|
    requires count == Count(words[..k])
    ensures Put(SetDefault(count, words[k], 0), words[k], Lookup(SetDefault(count, words[k], 0), words[k]) + 1)
      == Count(words[..k + 1])
  {
    var w := words[k];
    calc {
      Put(SetDefault(count, w, 0), w, Lookup(SetDefault(count, w, 0), w) + 1);
      { SetDefaultThenIncrement(count, w); }
      Tally(count, w);
      { CountPrefixStep(words, k); }
      Count(words[..k + 1]);
    }
  }

  /**
   `generate_count`: after the loop has seen a prefix of `words`, `count` holds
   for each word of the prefix its number of occurrences, holds no other key,
   and lists its keys in order of first occurrence.
   */
  method GenerateCount(words: seq<string>) returns (count: Items)
    ensures IsFrequencyTable(words, count)
    ensures count == Count(words)
  {
    count := [];
    for k := 0 to |words|
      invariant count == Count(words[..k])
    {
      var word := words[k];
      LoopStep(words, k, count);
      var seen := SetDefault(count, word, 0);
      count := Put(seen, word, Lookup(seen, word) + 1);
    }
    assert words[..|words|] == words;
    CountIsFrequencyTable(words);
  }

  /**
   What `print_result` prints for the words `ws`, as `(count, word)` pairs:
   every word of `ws` exactly once with its number of occurrences, counts
   never increasing, and words with equal counts in the order they first
   occur in `ws`.
   */
  predicate IsReport(ws: seq<string>, pairs: seq<(nat, string)>) {
    && (forall i :: 0 <= i < |pairs| ==> pairs[i].1 in ws && pairs[i].0 == multiset(ws)[pairs[i].1])
    && (forall w :: w in ws ==> exists i :: 0 <= i < |pairs| && pairs[i].1 == w)
    && (forall i, j :: 0 <= i < j < |pairs| ==> pairs[i].1 != pairs[j].1 && pairs[i].0 >= pairs[j].0)
    && (forall i, j :: 0 <= i < j < |pairs| && pairs[i].0 == pairs[j].0 ==>
          FirstIndex(ws, pairs[i].1) < FirstIndex(ws, pairs[j].1))
  }

  /** Ranking the frequency table of `ws` gives the report of `ws`. */
  lemma RankedPairsReport(ws: seq<string>, d: Items)
    requires IsFrequencyTable(ws, d)
    ensures IsReport(ws, RankedPairs(d))
  {
    var pairs := RankedPairs(d);
    var r := Rank(d);
    assert forall i :: 0 <= i < |r| ==> pairs[i] == (r[i].count, r[i].word);
    RankOfCounts(ws, d);
    EveryWordRanked(ws, d);
    forall i, j | 0 <= i < j < |pairs| ensures pairs[i].1 != pairs[j].1 && pairs[i].0 >= pairs[j].0 {
      assert r[i].word != r[j].word;
    }
  }

  /** Every word of `ws` has a pair in the ranking of its frequency table. */
  lemma EveryWordRanked(ws: seq<string>, d: Items)
    requires IsFrequencyTable(ws, d)
    ensures forall w :: w in ws ==> exists i :: 0 <= i < |RankedPairs(d)| && RankedPairs(d)[i].1 == w
  {
    var pairs := RankedPairs(d);
    var r := Rank(d);
    RankSpec(d);
    forall w | w in ws ensures exists i :: 0 <= i < |pairs| && pairs[i].1 == w {
      var k := Find(d, w);
      assert d[k] in multiset(r);
      var i :| 0 <= i < |r| && r[i] == d[k];
      assert pairs[i].1 == w;
    }
  }

  /** `process_file` followed by `print_result`, on the lines of the file: the `(count, word)` pairs in the order they are printed. */
  method ProcessFile(lines: seq<string>) returns (pairs: seq<(nat, string)>)
    ensures IsReport(GenerateWords(GenerateLines(lines)), pairs)
  {
    var words := GenerateWords(GenerateLines(lines));
    var count := GenerateCount(words);
    pairs := RankedPairs(count);
    RankedPairsReport(words, count);
  }
}
