/**
 The ranking in `print_result`: `sorted(d.items(), key=lambda x: x[1],
 reverse=True)`. Python's sort is stable, also with `reverse=True`, so the
 items come out by count from highest to lowest and items with equal counts
 keep the order they had in the dict.

 `Rank` computes that order by insertion: each item, taken in dict order, is
 placed after every item ranked so far whose count is at least its own. The
 lemmas show that the result is a permutation, non-increasing and stable,
 and that these three properties determine the order completely, so `Rank`
 agrees with any stable descending sort, Python's included.
 */
module Ranker {
  import opened Dict
  import opened Counter

  /** Counts never increase from an item to a later one. */
  predicate NonIncreasing(s: Items) {
    forall i, j :: 0 <= i < j < |s| ==> s[i].count >= s[j].count
  }

  /** The items of `s` whose count is `c`, in their order in `s`. */
  function WithCount(s: Items, c: nat): (t: Items)
    ensures |t| <= |s|
  {
    if s == [] then []
    else if s[0].count == c then [s[0]] + WithCount(s[1..], c)
    else WithCount(s[1..], c)
  }

  /** Places `e` into `s` right after the leading items whose count is at least `e.count`. */
  function Insert(s: Items, e: Entry): (r: Items)
    ensures |r| == |s| + 1
  {
    if s == [] then [e]
    else if s[0].count >= e.count then [s[0]] + Insert(s[1..], e)
    else [e] + s
  }

  /** `sorted(items, key=lambda x: x[1], reverse=True)`. */
  function Rank(items: Items): (r: Items)
    ensures |r| == |items|
  {
    if items == [] then []
    else
      var n := |items| - 1;
      Insert(Rank(items[..n]), items[n])
  }

  /** Selecting by count distributes over concatenation. */
  lemma {:induction false} WithCountAppend(a: Items, b: Items, c: nat)
    ensures WithCount(a + b, c) == WithCount(a, c) + WithCount(b, c)
  {
    if a == [] {
      assert a + b == b;
    } else {
      assert (a + b)[1..] == a[1..] + b;
      WithCountAppend(a[1..], b, c);
      if a[0].count == c {
        assert [a[0]] + (WithCount(a[1..], c) + WithCount(b, c)) == ([a[0]] + WithCount(a[1..], c)) + WithCount(b, c);
      }
    }
  }

  /** The selection holds exactly the items of `s` with count `c`. */
  lemma {:induction false} WithCountMembers(s: Items, c: nat)
    ensures forall e :: e in WithCount(s, c) <==> e in s && e.count == c
  {
    if s != [] {
      WithCountMembers(s[1..], c);
      assert s == [s[0]] + s[1..];
    }
  }

  /** A selection from items with distinct keys has distinct keys. */
  lemma {:induction false} WithCountDistinct(s: Items, c: nat)
    requires DistinctKeys(s)
    ensures DistinctKeys(WithCount(s, c))
  {
    if s != [] {
      assert DistinctKeys(s[1..]);
      WithCountDistinct(s[1..], c);
      WithCountMembers(s[1..], c);
      var t := WithCount(s[1..], c);
      forall e | e in t ensures e.word != s[0].word {
        var k :| 0 <= k < |s[1..]| && s[1..][k] == e;
        assert s[k + 1] == e;
      }
    }
  }

  /** Inserting adds exactly `e` to the items. */
  lemma {:induction false} InsertMultiset(s: Items, e: Entry)
    ensures multiset(Insert(s, e)) == multiset(s) + multiset{e}
  {
    if s != [] && s[0].count >= e.count {
      InsertMultiset(s[1..], e);
      assert s == [s[0]] + s[1..];
    }
  }

  /** Inserting into a non-increasing sequence keeps it non-increasing. */
  lemma {:induction false} InsertNonIncreasing(s: Items, e: Entry)
    requires NonIncreasing(s)
    ensures NonIncreasing(Insert(s, e))
  {
    if s != [] && s[0].count >= e.count {
      var t := Insert(s[1..], e);
      InsertNonIncreasing(s[1..], e);
      InsertMultiset(s[1..], e);
      forall k | 0 <= k < |t| ensures s[0].count >= t[k].count {
        assert t[k] in multiset(t);
        if t[k] != e {
          var m :| 0 <= m < |s[1..]| && s[1..][m] == t[k];
          assert s[m + 1] == t[k];
        }
      }
    }
  }

  /** Items of a non-increasing sequence whose counts are all below `c` leave nothing to select for `c`. */
  lemma NoneWithCount(s: Items, c: nat)
    requires forall k :: 0 <= k < |s| ==> s[k].count < c
    ensures WithCount(s, c) == []
  {
    WithCountMembers(s, c);
  }

  /** `e` goes after every item of its own count: it is appended to the selection for its count, and every other selection is unchanged. */
  lemma {:induction false} InsertWithCount(s: Items, e: Entry, c: nat)
    requires NonIncreasing(s)
    ensures WithCount(Insert(s, e), c) == WithCount(s, c) + WithCount([e], c)
  {
    if s == [] {
    } else if s[0].count >= e.count {
      assert NonIncreasing(s[1..]);
      InsertWithCount(s[1..], e, c);
      WithCountCons(s[0], Insert(s[1..], e), c);
      WithCountCons(s[0], s[1..], c);
      assert [s[0]] + s[1..] == s;
    } else {
      WithCountCons(e, s, c);
      WithCountCons(e, [], c);
      if e.count == c {
        NoneWithCount(s, c);
      }
    }
  }

  /** Selecting from `[x] + t` selects `x` when it has count `c`, then selects from `t`. */
  lemma WithCountCons(x: Entry, t: Items, c: nat)
    ensures WithCount([x] + t, c) == (if x.count == c then [x] else []) + WithCount(t, c)
  {
    assert ([x] + t)[1..] == t;
  }

  /** Inserting a word not yet present keeps the keys distinct. */
  lemma {:induction false} InsertDistinct(s: Items, e: Entry)
    requires DistinctKeys(s)
    requires forall k :: 0 <= k < |s| ==> s[k].word != e.word
    ensures DistinctKeys(Insert(s, e))
  {
    if s != [] && s[0].count >= e.count {
      var t := Insert(s[1..], e);
      InsertDistinct(s[1..], e);
      InsertMultiset(s[1..], e);
      forall k | 0 <= k < |t| ensures t[k].word != s[0].word {
        assert t[k] in multiset(t);
        if t[k] != e {
          var m :| 0 <= m < |s[1..]| && s[1..][m] == t[k];
          assert s[m + 1] == t[k];
        }
      }
    }
  }

  /**
   The ranking is a permutation of the items, its counts never increase, and
   it is stable: the items of each count appear in the order they had in the
   dict.
   */
  lemma {:induction false} RankSpec(items: Items)
    ensures multiset(Rank(items)) == multiset(items)
    ensures NonIncreasing(Rank(items))
    ensures forall c :: WithCount(Rank(items), c) == WithCount(items, c)
  {
    if items != [] {
      var n := |items| - 1;
      var p := Rank(items[..n]);
      RankSpec(items[..n]);
      assert items == items[..n] + [items[n]];
      InsertMultiset(p, items[n]);
      InsertNonIncreasing(p, items[n]);
      forall c ensures WithCount(Rank(items), c) == WithCount(items, c) {
        InsertWithCount(p, items[n], c);
        WithCountAppend(items[..n], [items[n]], c);
      }
    }
  }

  /** The ranking holds exactly the items. */
  lemma RankMembers(items: Items)
    ensures forall e :: e in Rank(items) <==> e in items
  {
    RankSpec(items);
    forall e ensures e in Rank(items) <==> e in items {
      assert e in Rank(items) <==> e in multiset(Rank(items));
      assert e in items <==> e in multiset(items);
    }
  }

  /** A dict's items have distinct keys, and so does their ranking. */
  lemma {:induction false} RankDistinct(items: Items)
    requires DistinctKeys(items)
    ensures DistinctKeys(Rank(items))
  {
    if items != [] {
      var n := |items| - 1;
      var prefix := items[..n];
      var p := Rank(prefix);
      assert DistinctKeys(prefix);
      RankDistinct(prefix);
      RankMembers(prefix);
      forall k | 0 <= k < |p| ensures p[k].word != items[n].word {
        assert p[k] in p;
        var m :| 0 <= m < |prefix| && prefix[m] == p[k];
        assert items[m] == p[k];
      }
      InsertDistinct(p, items[n]);
    }
  }

  /**
   Sorting by count, descending and stable, has exactly one possible result:
   two non-increasing sequences with the same items of each count in the same
   order are equal.
   */
  lemma {:induction false} StableSortIsUnique(a: Items, b: Items)
    requires NonIncreasing(a) && NonIncreasing(b)
    requires forall c :: WithCount(a, c) == WithCount(b, c)
    ensures a == b
    decreases |a|
  {
    FirstItemSelected(a);
    FirstItemSelected(b);
    if a != [] && b != [] {
      SameHead(a, b);
      forall c ensures WithCount(a[1..], c) == WithCount(b[1..], c) {
        SameTail(a, b, c);
      }
      StableSortIsUnique(a[1..], b[1..]);
      assert a == [a[0]] + a[1..] && b == [b[0]] + b[1..];
    }
  }

  /** The first item is selected for its own count, so only the empty sequence has only empty selections. */
  lemma FirstItemSelected(s: Items)
    ensures s != [] ==> WithCount(s, s[0].count) != []
  {
  }

  /** Two non-increasing sequences with the same selections start with the same item: the first item of a highest count. */
  lemma SameHead(a: Items, b: Items)
    requires a != [] && b != []
    requires NonIncreasing(a) && NonIncreasing(b)
    requires WithCount(a, a[0].count) == WithCount(b, a[0].count)
    requires WithCount(a, b[0].count) == WithCount(b, b[0].count)
    ensures a[0] == b[0]
  {
    var m, k := a[0].count, b[0].count;
    WithCountMembers(a, k);
    WithCountMembers(b, m);
    assert WithCount(a, m)[0] == a[0] && WithCount(b, k)[0] == b[0];
    assert WithCount(b, m)[0] in b;
    assert WithCount(a, k)[0] in a;
  }

  /** Removing the same first item from both sides leaves equal selections. */
  lemma SameTail(a: Items, b: Items, c: nat)
    requires a != [] && b != [] && a[0] == b[0]
    requires WithCount(a, c) == WithCount(b, c)
    ensures WithCount(a[1..], c) == WithCount(b[1..], c)
  {
    if a[0].count == c {
      assert WithCount(a[1..], c) == WithCount(a, c)[1..];
      assert WithCount(b[1..], c) == WithCount(b, c)[1..];
    }
  }

  /** Any stable descending sort of the items by count returns the ranking. */
  lemma RankIsTheStableSort(items: Items, r: Items)
    requires NonIncreasing(r)
    requires forall c :: WithCount(r, c) == WithCount(items, c)
    ensures r == Rank(items)
  {
    RankSpec(items);
    StableSortIsUnique(r, Rank(items));
  }

  /** How many items of count `c` come before position `i`. */
  function CountIndex(s: Items, c: nat, i: nat): (p: nat)
    requires i <= |s|
  {
    |WithCount(s[..i], c)|
  }

  /** The item at position `i` is found in the selection for its count at its `CountIndex`. */
  lemma CountIndexAt(s: Items, i: nat)
    requires i < |s|
    ensures CountIndex(s, s[i].count, i) < |WithCount(s, s[i].count)|
    ensures WithCount(s, s[i].count)[CountIndex(s, s[i].count, i)] == s[i]
  {
    var c := s[i].count;
    assert s == s[..i] + s[i..];
    WithCountAppend(s[..i], s[i..], c);
    assert s[i..][0] == s[i];
  }

  /** An item of count `c` at position `i` is counted before every later position. */
  lemma CountIndexGrows(s: Items, i: nat, j: nat)
    requires i < j <= |s|
    ensures CountIndex(s, s[i].count, i) < CountIndex(s, s[i].count, j)
  {
    var c := s[i].count;
    assert s[..j] == s[..i] + s[i..j];
    WithCountAppend(s[..i], s[i..j], c);
    assert s[i..j][0] == s[i];
  }

  /** Two positions holding the same item of a sequence with distinct keys are the same position. */
  lemma SamePosition(w: Items, x: nat, y: nat)
    requires DistinctKeys(w)
    requires x < |w| && y < |w| && w[x] == w[y]
    ensures x == y
  {
  }

  /**
   Two sequences with distinct keys that agree on the selection for count `c`
   list their items of count `c` in the same order.
   */
  lemma SelectionOrder(r: Items, d: Items, c: nat, i: nat, j: nat, a: nat, b: nat)
    requires DistinctKeys(d)
    requires WithCount(r, c) == WithCount(d, c)
    requires i < j < |r| && a < |d| && b < |d| && a != b
    requires r[i].count == c && r[j].count == c
    requires d[a] == r[i] && d[b] == r[j]
    ensures a < b
  {
    var w := WithCount(d, c);
    WithCountDistinct(d, c);
    CountIndexAt(r, i);
    CountIndexAt(r, j);
    CountIndexGrows(r, i, j);
    CountIndexAt(d, a);
    CountIndexAt(d, b);
    SamePosition(w, CountIndex(d, c, a), CountIndex(r, c, i));
    SamePosition(w, CountIndex(d, c, b), CountIndex(r, c, j));
    if b < a {
      CountIndexGrows(d, b, a);
    }
  }

  /**
   Ties keep the dict's order: two items of equal count appear in the ranking
   in the order of their keys in the dict.
   */
  lemma RankKeepsTieOrder(d: Items, i: nat, j: nat)
    requires DistinctKeys(d)
    requires i < j < |Rank(d)|
    requires Rank(d)[i].count == Rank(d)[j].count
    ensures HasKey(d, Rank(d)[i].word) && HasKey(d, Rank(d)[j].word)
    ensures Find(d, Rank(d)[i].word) < Find(d, Rank(d)[j].word)
  {
    var r := Rank(d);
    RankSpec(d);
    RankDistinct(d);
    assert r[i].word != r[j].word;
    assert r[i] in multiset(d) && r[j] in multiset(d);
    var a :| 0 <= a < |d| && d[a] == r[i];
    var b :| 0 <= b < |d| && d[b] == r[j];
    FindUnique(d, a);
    FindUnique(d, b);
    SelectionOrder(r, d, r[i].count, i, j, a, b);
  }

  /**
   Ranking a record of counts of `ws`: every word once, each with its number
   of occurrences, counts from highest to lowest, and words with equal counts
   in the order of their first occurrence in `ws`.
   */
  lemma RankOfCounts(ws: seq<string>, d: Items)
    requires CountsOf(ws, d)
    ensures DistinctKeys(Rank(d))
    ensures NonIncreasing(Rank(d))
    ensures forall e :: e in Rank(d) <==> e in d
    ensures forall i :: 0 <= i < |Rank(d)| ==> Rank(d)[i].word in ws && Rank(d)[i].count == multiset(ws)[Rank(d)[i].word]
    ensures forall i, j :: 0 <= i < j < |Rank(d)| && Rank(d)[i].count == Rank(d)[j].count ==>
      FirstIndex(ws, Rank(d)[i].word) < FirstIndex(ws, Rank(d)[j].word)
  {
    var r := Rank(d);
    RankSpec(d);
    RankDistinct(d);
    RankMembers(d);
    forall i | 0 <= i < |r| ensures r[i].word in ws && r[i].count == multiset(ws)[r[i].word] {
      assert r[i] in r;
    }
    forall i, j | 0 <= i < j < |r| && r[i].count == r[j].count
      ensures FirstIndex(ws, r[i].word) < FirstIndex(ws, r[j].word)
    {
      RankKeepsTieOrder(d, i, j);
      var a, b := Find(d, r[i].word), Find(d, r[j].word);
      assert d[a].word == r[i].word && d[b].word == r[j].word;
    }
  }

  /** The words in ranked order: the keys `print_result` prints one per line. */
  function RankedWords(d: Items): (ws: seq<string>)
    ensures |ws| == |d|
  {
    var r := Rank(d);
    seq(|r|, k requires 0 <= k < |r| => r[k].word)
  }

  /** The `(count, word)` pairs in ranked order, as `print(v, k)` prints them. */
  function RankedPairs(d: Items): (ps: seq<(nat, string)>)
    ensures |ps| == |d|
  {
    var r := Rank(d);
    seq(|r|, k requires 0 <= k < |r| => (r[k].count, r[k].word))
  }
}
