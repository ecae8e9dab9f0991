/**
 The tokenizer `generate_words`: every non-word character of a line becomes a
 space (`re.sub(r'\W', ' ', line)`), the result is split on whitespace
 (`str.split()`) and each piece is lower-cased, lines in order and pieces
 left to right.
 */
module Tokenizer {
  import opened Chars

  /** `re.sub(r'\W', ' ', line)`: each non-word character is replaced by one space. */
  function Substitute(line: string): (r: string)
    ensures |r| == |line|
    ensures forall i :: 0 <= i < |line| ==> r[i] == if IsWordChar(line[i]) then line[i] else ' '
  {
    seq(|line|, i requires 0 <= i < |line| => if IsWordChar(line[i]) then line[i] else ' ')
  }

  /** Length of the longest prefix of `s` without whitespace. */
  function NonSpaceRun(s: string): (n: nat)
    ensures n <= |s|
    ensures forall i :: 0 <= i < n ==> !IsSpace(s[i])
    ensures n == |s| || IsSpace(s[n])
  {
    if s == [] || IsSpace(s[0]) then 0 else 1 + NonSpaceRun(s[1..])
  }

  /** `str.split()` without a separator: the maximal runs of non-whitespace characters, left to right. */
  function Split(s: string): (pieces: seq<string>)
    ensures forall p :: p in pieces ==> p != [] && forall i :: 0 <= i < |p| ==> !IsSpace(p[i])
    decreases |s|
  {
    if s == [] then []
    else if IsSpace(s[0]) then Split(s[1..])
    else
      var n := NonSpaceRun(s);
      [s[..n]] + Split(s[n..])
  }

  /** Length of the longest prefix of `s` made of word characters. */
  function WordRun(s: string): (n: nat)
    ensures n <= |s|
    ensures forall i :: 0 <= i < n ==> IsWordChar(s[i])
    ensures n == |s| || !IsWordChar(s[n])
  {
    if s == [] || !IsWordChar(s[0]) then 0 else 1 + WordRun(s[1..])
  }

  /** Reference definition of a line's words: its maximal runs of word characters, left to right. */
  function WordRuns(line: string): (runs: seq<string>)
    decreases |line|
  {
    if line == [] then []
    else if !IsWordChar(line[0]) then WordRuns(line[1..])
    else
      var n := WordRun(line);
      [line[..n]] + WordRuns(line[n..])
  }

  /** The word characters of `s`, in order, with everything else dropped. */
  function WordChars(s: string): (t: string)
    decreases |s|
  {
    if s == [] then []
    else if IsWordChar(s[0]) then [s[0]] + WordChars(s[1..])
    else WordChars(s[1..])
  }

  function Flatten(ss: seq<string>): string {
    if ss == [] then [] else ss[0] + Flatten(ss[1..])
  }

  /** A token as the tokenizer emits it: non-empty, word characters only, no upper-case letter. */
  predicate IsToken(w: string) {
    |w| > 0 && forall i :: 0 <= i < |w| ==> IsWordChar(w[i]) && !IsUpper(w[i])
  }

  /** Every maximal run is non-empty and made of word characters. */
  lemma {:induction false} WordRunsAreRuns(line: string)
    ensures forall w :: w in WordRuns(line) ==> |w| > 0 && forall i :: 0 <= i < |w| ==> IsWordChar(w[i])
    decreases |line|
  {
    if line == [] {
    } else if !IsWordChar(line[0]) {
      WordRunsAreRuns(line[1..]);
    } else {
      var n := WordRun(line);
      WordRunsAreRuns(line[n..]);
    }
  }

  /** Together the runs are exactly the line's word characters, in order: nothing is lost and nothing is added. */
  lemma {:induction false} WordRunsCoverWordChars(line: string)
    ensures Flatten(WordRuns(line)) == WordChars(line)
    decreases |line|
  {
    if line == [] {
    } else if !IsWordChar(line[0]) {
      WordRunsCoverWordChars(line[1..]);
    } else {
      var n := WordRun(line);
      WordRunsCoverWordChars(line[n..]);
      WordCharsOfRun(line, n);
      assert ([line[..n]] + WordRuns(line[n..]))[1..] == WordRuns(line[n..]);
    }
  }

  /** Splitting a word-character prefix off a line splits off the same word characters. */
  lemma {:induction false} WordCharsOfRun(line: string, n: nat)
    requires n <= |line|
    requires forall i :: 0 <= i < n ==> IsWordChar(line[i])
    ensures WordChars(line) == line[..n] + WordChars(line[n..])
    decreases n
  {
    if n > 0 {
      assert line[1..][n - 1..] == line[n..];
      WordCharsOfRun(line[1..], n - 1);
      assert line[..n] == [line[0]] + line[1..][..n - 1];
    }
  }

  /** The whitespace run of the substituted line is the word-character run of the original. */
  lemma {:induction false} RunsAgree(line: string)
    ensures NonSpaceRun(Substitute(line)) == WordRun(line)
    decreases |line|
  {
    if line != [] && IsWordChar(line[0]) {
      WordCharIsNotSpace(line[0]);
      assert Substitute(line)[1..] == Substitute(line[1..]);
      RunsAgree(line[1..]);
    } else if line != [] {
      WordCharIsNotSpace(' ');
    }
  }

  /** Substituting spaces for non-word characters and then splitting on whitespace yields exactly the maximal runs of word characters. */
  lemma {:induction false} SplitSubstituteIsWordRuns(line: string)
    ensures Split(Substitute(line)) == WordRuns(line)
    decreases |line|
  {
    var s := Substitute(line);
    if line == [] {
    } else if !IsWordChar(line[0]) {
      WordCharIsNotSpace(' ');
      assert s[1..] == Substitute(line[1..]);
      SplitSubstituteIsWordRuns(line[1..]);
    } else {
      WordCharIsNotSpace(line[0]);
      var n := WordRun(line);
      RunsAgree(line);
      assert s[..n] == line[..n];
      assert s[n..] == Substitute(line[n..]);
      SplitSubstituteIsWordRuns(line[n..]);
    }
  }

  /** The words of one line: `[word.lower() for word in symbols.sub(' ', line).split()]`. */
  function LineWords(line: string): (words: seq<string>)
    ensures forall w :: w in words ==> IsToken(w)
  {
    var pieces := Split(Substitute(line));
    SplitSubstituteIsWordRuns(line);
    WordRunsAreRuns(line);
    var words := seq(|pieces|, i requires 0 <= i < |pieces| => LowerString(pieces[i]));
    assert forall w :: w in words ==> IsToken(w) by {
      forall w | w in words ensures IsToken(w) {
        var i :| 0 <= i < |pieces| && w == LowerString(pieces[i]);
        assert pieces[i] in pieces;
      }
    }
    words
  }

  /** A line's words are its maximal word-character runs, lower-cased, in order; each is a token. */
  lemma LineWordsSpec(line: string)
    ensures |LineWords(line)| == |WordRuns(line)|
    ensures forall i :: 0 <= i < |LineWords(line)| ==> LineWords(line)[i] == LowerString(WordRuns(line)[i])
    ensures forall w :: w in LineWords(line) ==> IsToken(w)
  {
    SplitSubstituteIsWordRuns(line);
  }

  /** A line with no word character yields no word. */
  lemma NoWordCharsNoWords(line: string)
    requires forall i :: 0 <= i < |line| ==> !IsWordChar(line[i])
    ensures LineWords(line) == []
  {
    SplitSubstituteIsWordRuns(line);
    NoWordCharsNoRuns(line);
  }

  lemma {:induction false} NoWordCharsNoRuns(line: string)
    requires forall i :: 0 <= i < |line| ==> !IsWordChar(line[i])
    ensures WordRuns(line) == []
    decreases |line|
  {
    if line != [] {
      NoWordCharsNoRuns(line[1..]);
    }
  }

  /** `generate_words`: the words of every line, lines in order. */
  function GenerateWords(lines: seq<string>): (words: seq<string>)
    ensures forall w :: w in words ==> IsToken(w)
  {
    if lines == [] then []
    else
      LineWords(lines[0]) + GenerateWords(lines[1..])
  }

  /** The words of a single line are that line's words. */
  lemma GenerateWordsSingle(line: string)
    ensures GenerateWords([line]) == LineWords(line)
  {
    assert [line][1..] == [];
  }

  /** The words of a concatenation of line lists are the words of the first followed by those of the second. */
  lemma {:induction false} GenerateWordsAppend(a: seq<string>, b: seq<string>)
    ensures GenerateWords(a + b) == GenerateWords(a) + GenerateWords(b)
  {
    if a == [] {
      assert a + b == b;
    } else {
      var ab := a + b;
      assert ab[0] == a[0] && ab[1..] == a[1..] + b;
      GenerateWordsAppend(a[1..], b);
      calc {
        GenerateWords(ab);
        LineWords(a[0]) + GenerateWords(a[1..] + b);
        LineWords(a[0]) + (GenerateWords(a[1..]) + GenerateWords(b));
        (LineWords(a[0]) + GenerateWords(a[1..])) + GenerateWords(b);
      }
    }
  }

  /** The runs of word characters of `Hello` followed by a newline. */
  lemma HelloRuns()
    ensures WordRuns("Hello\n") == ["Hello"]
  {
    var line := "Hello\n";
    assert WordRun(line) == 5;
    assert line[..5] == "Hello" && line[5..] == "\n";
    assert WordRuns("\n") == [];
  }

  /** `"Hello".lower()` is `hello`. */
  lemma LowerHello()
    ensures LowerString("Hello") == "hello"
  {
    assert Lower('H') == 'h';
  }

  /** The one-word line `Hello` yields exactly the token `hello`. */
  lemma HelloYieldsHello()
    ensures GenerateWords(["Hello\n"]) == ["hello"]
  {
    var line := "Hello\n";
    HelloLineWords();
    assert [line][1..] == [];
    assert GenerateWords([line]) == LineWords(line) + GenerateWords([]);
  }

  /** The words of the line `Hello`. */
  lemma HelloLineWords()
    ensures LineWords("Hello\n") == ["hello"]
  {
    HelloRuns();
    LineWordsSpec("Hello\n");
    LowerHello();
  }
}
