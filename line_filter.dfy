/**
 The line filter `generate_lines`: keeps the lines of the input that are not
 made up only of digits and non-word characters, in their original order.
 */
module LineFilter {
  import opened Chars

  /** A character of the regex class `[\d\W]`: a digit or a non-word character. */
  predicate IsSymbol(c: char) {
    IsDigit(c) || !IsWordChar(c)
  }

  /**
   What `re.compile(r'^[\d\W]+$').search(line)` finds: a non-empty run of
   `[\d\W]` characters starting at position 0 (`^`, no MULTILINE) and ending
   either at the end of the line or just before a final newline, where
   Python's `$` also matches.
   */
  ghost predicate RegexMatches(line: string)
    ensures RegexMatches(line) ==> line != [] && IsSymbol(line[0])
  {
    exists k :: MatchEndsAt(line, k)
  }

  /** `[\d\W]+` covers `line[..k]` and `$` matches at position `k`. */
  ghost predicate MatchEndsAt(line: string, k: int) {
    && 1 <= k <= |line|
    && (forall i :: 0 <= i < k ==> IsSymbol(line[i]))
    && (k == |line| || (k == |line| - 1 && line[k] == '\n'))
  }

  /** A non-empty line all of whose characters are digits or non-word characters. */
  predicate IsSymbolLine(line: string) {
    |line| > 0 && forall i :: 0 <= i < |line| ==> IsSymbol(line[i])
  }

  /** The regular expression matches exactly the symbol lines: the final-newline case of `$` adds nothing, since a newline is itself a non-word character. */
  lemma RegexMatchesIsSymbolLine(line: string)
    ensures RegexMatches(line) <==> IsSymbolLine(line)
  {
    if IsSymbolLine(line) {
      assert MatchEndsAt(line, |line|);
    }
    if RegexMatches(line) {
      var k :| MatchEndsAt(line, k);
      forall i | 0 <= i < |line| ensures IsSymbol(line[i]) {
        if i >= k {
          assert line[i] == '\n' && !IsWordChar('\n');
        }
      }
      assert IsSymbolLine(line);
    }
  }

  /** A line is kept exactly when it is empty or holds a letter or an underscore (a word character that is not a digit). */
  lemma KeptIffLetterOrUnderscore(line: string)
    ensures !IsSymbolLine(line) <==> line == [] || exists i :: 0 <= i < |line| && IsWordChar(line[i]) && !IsDigit(line[i])
  {
  }

  /** `generate_lines`: the list comprehension over `file.readlines()` that drops the symbol lines. */
  function GenerateLines(lines: seq<string>): (kept: seq<string>)
    ensures |kept| <= |lines|
    ensures forall l :: l in kept <==> l in lines && !IsSymbolLine(l)
  {
    if lines == [] then []
    else (if IsSymbolLine(lines[0]) then [] else [lines[0]]) + GenerateLines(lines[1..])
  }

  /** The filter works line by line and keeps the original order: it distributes over concatenation. */
  lemma {:induction false} GenerateLinesAppend(a: seq<string>, b: seq<string>)
    ensures GenerateLines(a + b) == GenerateLines(a) + GenerateLines(b)
  {
    if a == [] {
      assert a + b == b;
    } else {
      assert (a + b)[1..] == a[1..] + b;
      GenerateLinesAppend(a[1..], b);
    }
  }

  /** A single line survives exactly when it is not a symbol line. */
  lemma GenerateLinesSingle(line: string)
    ensures GenerateLines([line]) == if IsSymbolLine(line) then [] else [line]
  {
    assert [line][1..] == [];
  }

  /** A line holding only a newline is dropped. */
  lemma GenerateLinesDropsBlankLine()
    ensures GenerateLines(["\n"]) == []
  {
    GenerateLinesSingle("\n");
  }

  /** A line of digits, blanks and punctuation such as `1234 --- !!` is dropped. */
  lemma GenerateLinesDropsDigitsAndSymbols()
    ensures GenerateLines(["1234 --- !!\n"]) == []
  {
    GenerateLinesSingle("1234 --- !!\n");
  }

  /** A line such as `!!! 123 --- ???` is dropped. */
  lemma GenerateLinesDropsSymbolText()
    ensures GenerateLines(["!!! 123 --- ???\n"]) == []
  {
    GenerateLinesSingle("!!! 123 --- ???\n");
  }

  /** `___` is kept: the underscore is a word character and not a digit. */
  lemma GenerateLinesKeepsUnderscores()
    ensures GenerateLines(["___\n"]) == ["___\n"]
  {
    assert "___\n"[0] == '_';
    GenerateLinesSingle("___\n");
  }
}
