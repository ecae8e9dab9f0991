/**
 A Python dict from words to counts, as the sequence of its items in
 insertion order (the order `dict.items()` yields since Python 3.7). A key
 that is assigned again keeps its place; a new key goes to the end.
 */
module Dict {

  /** One `(word, count)` item. */
  datatype Entry = Entry(word: string, count: nat)

  type Items = seq<Entry>

  /** A dict never holds a key twice. */
  predicate DistinctKeys(d: Items) {
    forall i, j :: 0 <= i < j < |d| ==> d[i].word != d[j].word
  }

  /** The position of key `w`, or `|d|` when `w` is not a key. */
  function Find(d: Items, w: string): (i: nat)
    ensures i <= |d|
    ensures i < |d| ==> d[i].word == w
    ensures forall j :: 0 <= j < i ==> d[j].word != w
  {
    if d == [] then 0
    else if d[0].word == w then 0
    else 1 + Find(d[1..], w)
  }

  /** `w in d`: when it fails, no item has the word `w`. */
  predicate HasKey(d: Items, w: string)
    ensures !HasKey(d, w) ==> forall i :: 0 <= i < |d| ==> d[i].word != w
  {
    Find(d, w) < |d|
  }

  /** `w in d` holds exactly when some item has the word `w`. */
  lemma HasKeyAt(d: Items, w: string)
    ensures HasKey(d, w) <==> exists i :: 0 <= i < |d| && d[i].word == w
  {
  }

  /** In a dict with distinct keys, the item holding `w` is the one `Find` returns. */
  lemma FindUnique(d: Items, i: nat)
    requires DistinctKeys(d)
    requires i < |d|
    ensures Find(d, d[i].word) == i
  {
  }

  /** `d.get(w, default)`. */
  function Get(d: Items, w: string, default: nat): (v: nat)
    ensures HasKey(d, w) ==> exists i :: 0 <= i < |d| && d[i] == Entry(w, v)
    ensures !HasKey(d, w) ==> v == default
  {
    var i := Find(d, w);
    if i < |d| then d[i].count else default
  }

  /** `d[w]` for a key that is present. */
  function Lookup(d: Items, w: string): (v: nat)
    requires HasKey(d, w)
    ensures v == Get(d, w, 0)
  {
    d[Find(d, w)].count
  }

  /** `d[w] = v`: an existing key keeps its place and gets the new value; a new key is appended. */
  function Put(d: Items, w: string, v: nat): (r: Items)
    ensures Entry(w, v) in r
    ensures |r| == if HasKey(d, w) then |d| else |d| + 1
  {
    var i := Find(d, w);
    if i < |d| then
      assert d[i := Entry(w, v)][i] == Entry(w, v);
      d[i := Entry(w, v)]
    else
      assert (d + [Entry(w, v)])[|d|] == Entry(w, v);
      d + [Entry(w, v)]
  }

  /** After `d[w] = v`, `w` maps to `v`, the keys are the old keys plus `w`, and distinct keys stay distinct. */
  lemma PutSpec(d: Items, w: string, v: nat)
    ensures HasKey(Put(d, w, v), w) && Get(Put(d, w, v), w, 0) == v
    ensures forall x :: HasKey(Put(d, w, v), x) <==> HasKey(d, x) || x == w
    ensures |Put(d, w, v)| == if HasKey(d, w) then |d| else |d| + 1
    ensures DistinctKeys(d) ==> DistinctKeys(Put(d, w, v))
  {
    var r := Put(d, w, v);
    var i := Find(d, w);
    assert r[i].word == w;
    forall x ensures HasKey(r, x) <==> HasKey(d, x) || x == w {
      HasKeyAt(r, x);
      HasKeyAt(d, x);
      if x != w && HasKey(d, x) {
        assert r[Find(d, x)] == d[Find(d, x)];
      }
    }
  }

  /** Assigning to an existing key rewrites its item in place and leaves every other item where it was. */
  lemma PutInPlace(d: Items, w: string, v: nat)
    requires HasKey(d, w)
    ensures |Put(d, w, v)| == |d| && Put(d, w, v)[Find(d, w)] == Entry(w, v)
    ensures forall j :: 0 <= j < |d| && j != Find(d, w) ==> Put(d, w, v)[j] == d[j]
  {
  }

  /** Assigning to a new key appends one item. */
  lemma PutAppends(d: Items, w: string, v: nat)
    requires !HasKey(d, w)
    ensures Put(d, w, v) == d + [Entry(w, v)]
  {
  }

  /** Assigning to key `w` leaves the value of every other key as it was. */
  lemma PutOther(d: Items, w: string, v: nat, x: string, default: nat)
    requires x != w
    ensures Get(Put(d, w, v), x, default) == Get(d, x, default)
  {
    var r := Put(d, w, v);
    var a, b := Find(r, x), Find(d, x);
    assert forall j :: 0 <= j < |d| ==> r[j].word == d[j].word;
    if b < |d| {
      assert r[b].word == x;
    }
    if a < |r| && a < |d| {
      assert d[a].word == x;
    }
  }

  /** `d.setdefault(w, v)`: inserts `w` with value `v` only when `w` is absent and never changes an existing value. */
  function SetDefault(d: Items, w: string, v: nat): (r: Items)
    ensures HasKey(r, w)
    ensures Get(r, w, 0) == Get(d, w, v)
    ensures HasKey(d, w) ==> r == d
    ensures !HasKey(d, w) ==> r == d + [Entry(w, v)]
  {
    if HasKey(d, w) then d else PutSpec(d, w, v); Put(d, w, v)
  }

  /** The set of keys. */
  function KeySet(d: Items): set<string> {
    set e | e in d :: e.word
  }

  /** Distinct keys: there are as many keys as items. */
  lemma {:induction false} KeySetSize(d: Items)
    requires DistinctKeys(d)
    ensures |KeySet(d)| == |d|
    decreases |d|
  {
    if d != [] {
      var n := |d| - 1;
      assert DistinctKeys(d[..n]);
      KeySetSize(d[..n]);
      assert KeySet(d) == KeySet(d[..n]) + {d[n].word} by {
        assert d == d[..n] + [d[n]];
      }
      assert d[n].word !in KeySet(d[..n]);
    }
  }

  /** Sum of all counts. */
  function Sum(d: Items): nat {
    if d == [] then 0 else d[0].count + Sum(d[1..])
  }

  lemma {:induction false} SumAppend(d: Items, e: Entry)
    ensures Sum(d + [e]) == Sum(d) + e.count
  {
    if d != [] {
      assert (d + [e])[1..] == d[1..] + [e];
      SumAppend(d[1..], e);
    }
  }

  lemma {:induction false} SumUpdate(d: Items, i: nat, e: Entry)
    requires i < |d|
    ensures Sum(d[i := e]) == Sum(d) - d[i].count + e.count
  {
    if i > 0 {
      assert d[i := e][1..] == d[1..][i - 1 := e];
      SumUpdate(d[1..], i - 1, e);
    }
  }

  /** Assigning `v` to key `w` changes the sum of counts by `v` minus the old value. */
  lemma PutSum(d: Items, w: string, v: nat)
    ensures Sum(Put(d, w, v)) == Sum(d) - Get(d, w, 0) + v
  {
    var i := Find(d, w);
    if i < |d| {
      SumUpdate(d, i, Entry(w, v));
    } else {
      SumAppend(d, Entry(w, v));
    }
  }
}
