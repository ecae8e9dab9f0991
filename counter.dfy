/**
 The frequency counter: `collections.Counter(words)`. Counter tallies its
 input left to right with `d[w] = d.get(w, 0) + 1`, so its items come out in
 first-occurrence order.
 */
module Counter {
  import opened Dict

  /** Counter's step for one element: `d[w] = d.get(w, 0) + 1`. */
  function Tally(d: Items, w: string): (r: Items)
    ensures HasKey(r, w) && Get(r, w, 0) == Get(d, w, 0) + 1
  {
    PutSpec(d, w, Get(d, w, 0) + 1);
    Put(d, w, Get(d, w, 0) + 1)
  }

  /** `Counter(words)`: the words tallied from first to last. */
  function Count(words: seq<string>): (d: Items)
    ensures |d| <= |words|
    decreases |words|
  {
    if words == [] then [] else Tally(Count(words[..|words| - 1]), words[|words| - 1])
  }

  /** Counting one more word of `words` is one more tally step. */
  lemma CountPrefixStep(words: seq<string>, k: nat)
    requires k < |words|
    ensures Count(words[..k + 1]) == Tally(Count(words[..k]), words[k])
  {
    assert words[..k + 1][..k] == words[..k];
  }

  /** The position of the first occurrence of `w` in `ws`. */
  function FirstIndex(ws: seq<string>, w: string): (i: nat)
    requires w in ws
    ensures i < |ws| && ws[i] == w
  {
    if ws[0] == w then 0 else 1 + FirstIndex(ws[1..], w)
  }

  /** No occurrence of `w` precedes its first occurrence. */
  lemma {:induction false} FirstIndexIsFirst(ws: seq<string>, w: string, j: nat)
    requires w in ws
    requires j < FirstIndex(ws, w)
    ensures ws[j] != w
  {
    if j > 0 {
      FirstIndexIsFirst(ws[1..], w, j - 1);
    }
  }

  /** Appending a word does not move the first occurrence of a word already present. */
  lemma FirstIndexAppend(ws: seq<string>, x: string, w: string)
    requires w in ws
    ensures w in ws + [x] && FirstIndex(ws + [x], w) == FirstIndex(ws, w)
  {
    var i, k := FirstIndex(ws, w), FirstIndex(ws + [x], w);
    assert (ws + [x])[i] == w;
    if k < i {
      FirstIndexIsFirst(ws, w, k);
    } else if i < k {
      FirstIndexIsFirst(ws + [x], w, i);
    }
  }

  /**
   `d` records the counts of words of `ws`: keys are distinct words of `ws`,
   each with its number of occurrences, listed in order of first occurrence.
   */
  predicate CountsOf(ws: seq<string>, d: Items) {
    && DistinctKeys(d)
    && (forall i :: 0 <= i < |d| ==> d[i].word in ws && d[i].count == multiset(ws)[d[i].word])
    && (forall i, j :: 0 <= i < j < |d| ==> FirstIndex(ws, d[i].word) < FirstIndex(ws, d[j].word))
  }

  /** `d` is the frequency table of `ws`: the counts of every word of `ws` and of nothing else. */
  predicate IsFrequencyTable(ws: seq<string>, d: Items) {
    CountsOf(ws, d) && forall w :: w in ws ==> HasKey(d, w)
  }

  /** The frequency table of no words is empty. */
  lemma EmptyFrequencyTable()
    ensures IsFrequencyTable([], [])
  {
  }

  /** One tally step extends the frequency table of `ws` to that of `ws + [w]`. */
  lemma TallyStep(ws: seq<string>, d: Items, w: string)
    requires IsFrequencyTable(ws, d)
    ensures IsFrequencyTable(ws + [w], Tally(d, w))
  {
    if HasKey(d, w) {
      TallyKnownWord(ws, d, w);
    } else {
      TallyNewWord(ws, d, w);
    }
  }

  /** Tallying a word already counted raises its count by one, in place. */
  lemma TallyKnownWord(ws: seq<string>, d: Items, w: string)
    requires IsFrequencyTable(ws, d)
    requires HasKey(d, w)
    ensures IsFrequencyTable(ws + [w], Tally(d, w))
  {
    RecountKnownWord(ws, d, w);
    PutSpec(d, w, Get(d, w, 0) + 1);
  }

  /** Counting one more occurrence of a recorded word keeps a record of counts, with every word in its place. */
  lemma RecountKnownWord(ws: seq<string>, d: Items, w: string)
    requires CountsOf(ws, d)
    requires HasKey(d, w)
    ensures CountsOf(ws + [w], Put(d, w, Get(d, w, 0) + 1))
  {
    var ws' := ws + [w];
    var k := Find(d, w);
    var v := d[k].count + 1;
    assert Get(d, w, 0) + 1 == v;
    var r := Put(d, w, v);
    PutInPlace(d, w, v);
    forall i | 0 <= i < |r| ensures r[i].word == d[i].word && r[i].word in ws' && r[i].count == multiset(ws')[r[i].word] {
      OccurrencesAppend(ws, w, d[i].word);
      if i == k {
        assert r[i] == Entry(w, v);
      } else {
        assert r[i] == d[i];
      }
    }
    forall i, j | 0 <= i < j < |r| ensures FirstIndex(ws', r[i].word) < FirstIndex(ws', r[j].word) {
      FirstIndexAppend(ws, w, d[i].word);
      FirstIndexAppend(ws, w, d[j].word);
    }
  }

  /** Appending `w` adds one occurrence of `w` and none of any other word. */
  lemma OccurrencesAppend(ws: seq<string>, w: string, x: string)
    ensures multiset(ws + [w])[x] == multiset(ws)[x] + (if x == w then 1 else 0)
  {
    assert multiset(ws + [w]) == multiset(ws) + multiset{w};
  }

  /** Tallying a new word appends it with count one; its first occurrence is the last position. */
  lemma TallyNewWord(ws: seq<string>, d: Items, w: string)
    requires IsFrequencyTable(ws, d)
    requires !HasKey(d, w)
    ensures IsFrequencyTable(ws + [w], Tally(d, w))
  {
    assert Get(d, w, 0) == 0;
    PutAppends(d, w, 1);
    assert Tally(d, w) == d + [Entry(w, 1)];
    assert w !in ws;
    AppendNewWord(ws, d, w);
    AppendedKeys(ws, d, w);
  }

  /** After appending `w`, every word of `ws + [w]` is a key. */
  lemma AppendedKeys(ws: seq<string>, d: Items, w: string)
    requires forall x :: x in ws ==> HasKey(d, x)
    ensures forall x :: x in ws + [w] ==> HasKey(d + [Entry(w, 1)], x)
  {
    var r := d + [Entry(w, 1)];
    forall x | x in ws + [w] ensures HasKey(r, x) {
      HasKeyAt(r, x);
      if x == w {
        assert r[|d|].word == x;
      } else {
        assert x in ws;
        HasKeyAt(d, x);
        assert r[Find(d, x)] == d[Find(d, x)];
      }
    }
  }

  /** A word not seen before goes to the end of the record with count one. */
  lemma AppendNewWord(ws: seq<string>, d: Items, w: string)
    requires CountsOf(ws, d)
    requires w !in ws
    ensures CountsOf(ws + [w], d + [Entry(w, 1)])
  {
    var ws' := ws + [w];
    var r := d + [Entry(w, 1)];
    assert multiset(ws') == multiset(ws) + multiset{w};
    assert FirstIndex(ws', w) == |ws|;
    forall i | 0 <= i < |d|
      ensures r[i] == d[i] && d[i].word != w
      ensures d[i].word in ws' && d[i].count == multiset(ws')[d[i].word]
      ensures FirstIndex(ws', d[i].word) == FirstIndex(ws, d[i].word) < |ws|
    {
      FirstIndexAppend(ws, w, d[i].word);
    }
    assert DistinctKeys(r);
    forall i, j | 0 <= i < j < |r| ensures FirstIndex(ws', r[i].word) < FirstIndex(ws', r[j].word) {
      if j < |d| {
        assert FirstIndex(ws, d[i].word) < FirstIndex(ws, d[j].word);
      }
    }
  }

  /** `Counter(words)` is the frequency table of `words`. */
  lemma {:induction false} CountIsFrequencyTable(words: seq<string>)
    ensures IsFrequencyTable(words, Count(words))
    decreases |words|
  {
    if words != [] {
      var n := |words| - 1;
      assert words[..n] + [words[n]] == words;
      assert Count(words) == Tally(Count(words[..n]), words[n]);
      CountIsFrequencyTable(words[..n]);
      TallyStep(words[..n], Count(words[..n]), words[n]);
    }
  }

  /** One tally step adds one to the sum of the counts. */
  lemma TallySum(d: Items, w: string)
    ensures Sum(Tally(d, w)) == Sum(d) + 1
  {
    PutSum(d, w, Get(d, w, 0) + 1);
  }

  /** The counts of `Counter(words)` sum to the number of words. */
  lemma {:induction false} CountSum(words: seq<string>)
    ensures Sum(Count(words)) == |words|
    decreases |words|
  {
    if words != [] {
      var n := |words| - 1;
      CountSum(words[..n]);
      TallySum(Count(words[..n]), words[n]);
    }
  }

  /** In a record of counts every count is at least one, and a word absent from the record reads as zero. */
  lemma CountsOfGet(ws: seq<string>, d: Items)
    requires IsFrequencyTable(ws, d)
    ensures forall i :: 0 <= i < |d| ==> d[i].count >= 1
    ensures forall w :: Get(d, w, 0) == multiset(ws)[w]
  {
    forall w ensures Get(d, w, 0) == multiset(ws)[w] {
      if HasKey(d, w) {
        var k := Find(d, w);
        assert d[k].word == w;
      }
    }
  }

  /** A frequency table has one item per distinct word. */
  lemma FrequencyTableSize(ws: seq<string>, d: Items)
    requires IsFrequencyTable(ws, d)
    ensures |d| == |set w | w in ws|
  {
    KeySetSize(d);
    assert KeySet(d) == (set w | w in ws) by {
      forall w | w in ws ensures w in KeySet(d) {
        assert d[Find(d, w)] in d;
      }
    }
  }

  /** `Counter(words)`: every count is at least one, the counts sum to the number of words, there is one item per distinct word, and no words give the empty counter. */
  lemma CountProperties(words: seq<string>)
    ensures forall i :: 0 <= i < |Count(words)| ==> Count(words)[i].count >= 1
    ensures forall w :: Get(Count(words), w, 0) == multiset(words)[w]
    ensures Sum(Count(words)) == |words|
    ensures |Count(words)| == |set w | w in words|
    ensures words == [] ==> Count(words) == []
  {
    CountIsFrequencyTable(words);
    CountsOfGet(words, Count(words));
    CountSum(words);
    FrequencyTableSize(words, Count(words));
  }
}
