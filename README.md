# Word frequency sorter — a verified model

This project models the core of a small word-frequency tool. The main script,
`word_frequency_sorter.py`, reads a text file and prints every word in it,
from the most frequent to the least frequent. An optional filter file lists
words to leave out. The earlier script `wordcount.py` does the same without
the filter and prints `count word` pairs. Both scripts run the same pipeline:

1. **Line filter** (`generate_lines`). Drops every line that the regular
   expression `^[\d\W]+$` matches, that is, every line made only of digits
   and non-word characters.
2. **Tokenizer** (`generate_words`). Turns every non-word character into a
   space, splits on whitespace and lower-cases each piece.
3. **Counter** (`collections.Counter` in the main script; the
   `setdefault` / `+= 1` loop `generate_count` in `wordcount.py`). Counts each
   word. The dict keeps its keys in order of first occurrence.
4. **Word filter** (`filter_words`, main script only). Removes the words
   listed in the filter file, one per line, after `str.rstrip()`.
5. **Ranker** (`print_result`). Sorts the items by count, highest first,
   with Python's stable `sorted(..., reverse=True)`.

The Dafny modules follow these stages:

- `Chars`: character classes.
- `LineFilter`, `Tokenizer`: stages 1 and 2.
- `Dict`: a Python dict as its list of items in insertion order.
- `Counter`: stage 3 as `Counter` computes it, plus the frequency-table specification.
- `WordFilter`, `Ranker`: stages 4 and 5.
- `WordCount` and `WordFrequencySorter`: the two scripts.

The main script's code is pure, so it is modelled with functions and lemmas.
`generate_count` updates a dict in a loop, so it is modelled as a method
with a loop invariant. That invariant ties the dict to `Counter.Count`, the
reference count.

The headline results are `WordFrequencySorter.ProcessFileSpec` and
`WordCount.ProcessFile`. The printed words are exactly the tokens of the text
that the filter does not exclude. Each is printed once, and the counts never
increase. Words with equal counts come out in the order of their first
occurrence in the text: Python's sort is stable and the dict keeps insertion
order. `Ranker.RankIsTheStableSort` shows that this order is the only one a
stable descending sort by count can produce. So the insertion sort used here
agrees with Python's `sorted`.

In four places a reader might expect something other than what the code
does. The scripts' docstrings are silent on all four, and the model
follows the code:

- **`rstrip()` in `filter_words`.** It removes all trailing whitespace, not
  only line terminators. So a filter line `the  ` excludes `the`
  (`WordFilter.FilterStripsTrailingBlanks`).
- **Empty lines.** `+` in the line regex needs at least one character, so an
  empty line is kept. A line holding only a newline is dropped, because the
  newline is itself a non-word character, so `[\d\W]+` covers the whole line
  (`LineFilter.RegexMatchesIsSymbolLine`).
- **Tie order.** The code does not leave it open. Ties come out in
  first-occurrence order (`Ranker.RankKeepsTieOrder`,
  `WordFrequencySorter.RankedWordsSpec`).
- **Case in the filter.** Filter entries are compared without case folding.
  So a filter entry `The` does not remove the token `the`
  (`WordFilter.FilterIsCaseSensitive`).

## Model

| member | source | states |
|---|---|---|
| Chars.Lower | word_frequency_sorter.py:73 | `str.lower()` on one character maps `A`–`Z` to `a`–`z` letter for letter, changes nothing else, and keeps word and digit characters what they were |
| Chars.LowerString | word_frequency_sorter.py:73 | `word.lower()` keeps the length and lower-cases character by character |
| LineFilter.RegexMatches | word_frequency_sorter.py:58 | `symbol_lines.search(line)` succeeds only on a non-empty line whose first character is a digit or non-word character; `LineFilter.RegexMatchesIsSymbolLine` states exactly which lines it matches |
| LineFilter.RegexMatchesIsSymbolLine | word_frequency_sorter.py:58 | `^[\d\W]+$` (with `$` also matching before a final newline) matches exactly the non-empty lines made only of digits and non-word characters |
| LineFilter.KeptIffLetterOrUnderscore | word_frequency_sorter.py:58 | a line is kept exactly when it is empty or holds a letter or an underscore |
| LineFilter.GenerateLines | word_frequency_sorter.py:58-60 | the kept lines are exactly the input lines that are not symbol lines, and there are no more of them than input lines (`wordcount.py` lines 11-13 are the same comprehension) |
| LineFilter.GenerateLinesAppend | word_frequency_sorter.py:59-60 | the filter works line by line and keeps order: it distributes over concatenation |
| LineFilter.GenerateLinesSingle | word_frequency_sorter.py:59-60 | one line survives exactly when it is not a symbol line |
| LineFilter.GenerateLinesDropsBlankLine | word_frequency_sorter.py:58 | a line holding only a newline is dropped |
| LineFilter.GenerateLinesDropsDigitsAndSymbols | word_frequency_sorter.py:58 | the line `1234 --- !!` is dropped |
| LineFilter.GenerateLinesDropsSymbolText | word_frequency_sorter.py:58 | the line `!!! 123 --- ???` is dropped |
| LineFilter.GenerateLinesKeepsUnderscores | word_frequency_sorter.py:58 | the line `___` is kept, since `_` is a word character and not a digit |
| Tokenizer.Substitute | word_frequency_sorter.py:72-74 | `re.sub(r'\W', ' ', line)` keeps the length, keeps word characters and puts one space for each other character |
| Tokenizer.NonSpaceRun | word_frequency_sorter.py:74 | the run `str.split()` cuts off is a maximal run of non-whitespace |
| Tokenizer.Split | word_frequency_sorter.py:74 | `str.split()` yields non-empty pieces without whitespace; `Tokenizer.SplitSubstituteIsWordRuns` states which pieces they are after the substitution |
| Tokenizer.WordRun | word_frequency_sorter.py:72-74 | the reference run is a maximal run of word characters |
| Tokenizer.SplitSubstituteIsWordRuns | word_frequency_sorter.py:74 | substituting and then splitting gives exactly the maximal word-character runs, left to right |
| Tokenizer.WordRunsAreRuns | word_frequency_sorter.py:74 | every run is non-empty and made of word characters |
| Tokenizer.WordRunsCoverWordChars | word_frequency_sorter.py:74 | concatenated, the runs are exactly the line's word characters in order |
| Tokenizer.LineWords | word_frequency_sorter.py:73-74 | the words of one line are all tokens: non-empty, word characters only, lower case; `Tokenizer.LineWordsSpec` states which words they are |
| Tokenizer.LineWordsSpec | word_frequency_sorter.py:73-74 | a line's words are its maximal word-character runs lower-cased, in order, and each is a non-empty lower-case word-character token |
| Tokenizer.NoWordCharsNoWords | word_frequency_sorter.py:72-74 | a line with no word character yields no word |
| Tokenizer.GenerateWords | word_frequency_sorter.py:73-74 | every word produced is a non-empty, lower-case, word-character-only token (`wordcount.py` lines 18-19 are the same comprehension) |
| Tokenizer.GenerateWordsSingle | word_frequency_sorter.py:73-74 | the words of a one-line file are exactly that line's words, so with `Tokenizer.GenerateWordsAppend` the output is each line's words concatenated in line order |
| Tokenizer.GenerateWordsAppend | word_frequency_sorter.py:73-74 | words come in line order: the words of `a + b` are those of `a` followed by those of `b` |
| Tokenizer.HelloRuns | word_frequency_sorter.py:74 | the line `Hello` has the single run `Hello` |
| Tokenizer.LowerHello | word_frequency_sorter.py:73 | `"Hello".lower()` is `hello` |
| Tokenizer.HelloLineWords | word_frequency_sorter.py:73-74 | the words of the line `Hello` are exactly `hello` |
| Tokenizer.HelloYieldsHello | word_frequency_sorter.py:73-74 | the line `Hello` yields exactly the token `hello` |
| Dict.HasKey | wordcount.py:25 | `w in d`: when it fails, no item has the word `w`; `Dict.HasKeyAt` gives both directions |
| Dict.Get | word_frequency_sorter.py:34-36 | `d.get(w, default)` reads the item `(w, value)` of a present key and `default` for an absent key |
| Dict.Find | wordcount.py:25 | the key lookup finds the first item holding the key, or reports the key absent |
| Dict.FindUnique | wordcount.py:25 | with distinct keys, the item holding a key is the one the lookup returns |
| Dict.Lookup | wordcount.py:26 | `count[word]` for a present key reads the same value as `get(word, 0)` |
| Dict.Put | wordcount.py:26 | after `d[w] = v` the item `(w, v)` is in the dict, whose length grows by one exactly when `w` was absent; `Dict.PutSpec`, `Dict.PutInPlace` and `Dict.PutAppends` state the rest |
| Dict.PutSpec | wordcount.py:26 | after `d[w] = v` the key `w` maps to `v`, the keys are the old keys plus `w`, and keys stay distinct |
| Dict.PutInPlace | wordcount.py:26 | assigning to an existing key rewrites its item in place and moves no other item |
| Dict.PutAppends | wordcount.py:26 | assigning to a new key appends one item at the end |
| Dict.PutOther | wordcount.py:26 | assigning to one key leaves every other key's value unchanged |
| Dict.SetDefault | wordcount.py:25 | `setdefault(w, v)` changes nothing when `w` is present, and otherwise appends the item `(w, v)` after all existing items; either way `w` is present and reads as before or as `v` |
| Dict.KeySetSize | word_frequency_sorter.py:34-36 | a dict with distinct keys has as many keys as items |
| Dict.PutSum | wordcount.py:26 | assigning `v` changes the sum of the counts by `v` minus the old value |
| Counter.Tally | word_frequency_sorter.py:34-36 | Counter's step for one word, `d[w] = d.get(w, 0) + 1`, makes `w` a key and raises its count by one; `Dict.PutOther` keeps every other count |
| Counter.Count | word_frequency_sorter.py:34-36 | `Counter(words)` has no more items than there are words; `Counter.CountIsFrequencyTable` states its full contents and order |
| Counter.CountPrefixStep | word_frequency_sorter.py:34-36 | counting one more word of the input is one more tally step on the counts so far |
| Counter.FirstIndex | word_frequency_sorter.py:34-36 | the first-occurrence position holds the word |
| Counter.FirstIndexIsFirst | word_frequency_sorter.py:34-36 | no position before a word's first occurrence holds that word |
| Counter.FirstIndexAppend | word_frequency_sorter.py:34-36 | counting more words never moves a word's first occurrence |
| Counter.EmptyFrequencyTable | word_frequency_sorter.py:36 | no words give the empty table |
| Counter.TallyStep | word_frequency_sorter.py:34-36 | Counter's step `d[w] = d.get(w, 0) + 1` extends the frequency table of `ws` to that of `ws + [w]` |
| Counter.TallyKnownWord | word_frequency_sorter.py:34-36 | the step for a word seen before raises its count in place |
| Counter.RecountKnownWord | word_frequency_sorter.py:34-36 | one more occurrence of a recorded word keeps the counts exact and the first-occurrence order |
| Counter.OccurrencesAppend | word_frequency_sorter.py:34-36 | one more word adds one occurrence of that word and none of any other |
| Counter.TallyNewWord | word_frequency_sorter.py:34-36 | the step for a new word appends it with count one |
| Counter.AppendedKeys | word_frequency_sorter.py:34-36 | after appending a new word, every word seen so far is a key |
| Counter.AppendNewWord | word_frequency_sorter.py:34-36 | a new word goes last, with count one, after all earlier first occurrences |
| Counter.CountIsFrequencyTable | word_frequency_sorter.py:34-36 | `Counter(words)` has each distinct word once, with its number of occurrences, keys in first-occurrence order, and no other key |
| Counter.TallySum | word_frequency_sorter.py:34-36 | one tally step adds one to the sum of the counts |
| Counter.CountSum | word_frequency_sorter.py:34-36 | the counts sum to the number of words |
| Counter.CountsOfGet | word_frequency_sorter.py:34-36 | in a frequency table every count is at least one and `get(w, 0)` is the number of occurrences of `w` |
| Counter.FrequencyTableSize | word_frequency_sorter.py:34-36 | a frequency table has one item per distinct word |
| Counter.CountProperties | word_frequency_sorter.py:34-36 | `Counter(words)`: counts at least one and exact, summing to `len(words)`, one key per distinct word, empty for no words |
| WordFilter.RStrip | word_frequency_sorter.py:91 | `rstrip()` returns a prefix that does not end in whitespace, and everything removed is whitespace |
| WordFilter.FilterSet | word_frequency_sorter.py:91 | the filter set holds exactly the stripped filter lines |
| WordFilter.Remove | word_frequency_sorter.py:92 | the comprehension never yields more items than the dict has |
| WordFilter.RemoveMembers | word_frequency_sorter.py:92 | the comprehension keeps exactly the items whose word is not in the filter set |
| WordFilter.Origin | word_frequency_sorter.py:92 | every kept item is an item of the original dict |
| WordFilter.RemovePreservesOrder | word_frequency_sorter.py:92 | kept items stay in their original order |
| WordFilter.RemoveSpec | word_frequency_sorter.py:92 | the keys of the result are the old keys minus the filter set, still distinct, and each kept key keeps its count |
| WordFilter.RemoveKeepsCounts | word_frequency_sorter.py:92 | filtering a record of counts leaves a record of counts, in first-occurrence order |
| WordFilter.FilterWords | word_frequency_sorter.py:91-92 | `filter_words` keeps exactly the items whose word is not the `rstrip()` of some line of the filter file; `WordFilter.FilterWordsSpec` adds distinct keys and unchanged counts |
| WordFilter.FilterWordsSpec | word_frequency_sorter.py:91-92 | `filter_words`: keys are the old keys minus the stripped filter lines, with unchanged counts |
| WordFilter.FilterIsCaseSensitive | word_frequency_sorter.py:91 | a filter line `The` does not remove the token `the` |
| WordFilter.FilterStripsTrailingBlanks | word_frequency_sorter.py:91 | a filter line `the` followed by blanks does remove `the` |
| Ranker.Insert | word_frequency_sorter.py:109 | inserting adds one item |
| Ranker.Rank | word_frequency_sorter.py:109 | the ranking has as many items as the dict |
| Ranker.WithCount | word_frequency_sorter.py:109 | the items of one count, in their order, are no more than all the items |
| Ranker.WithCountAppend | word_frequency_sorter.py:109 | selecting the items of one count distributes over concatenation |
| Ranker.WithCountMembers | word_frequency_sorter.py:109 | the selection holds exactly the items with that count |
| Ranker.WithCountDistinct | word_frequency_sorter.py:109 | a selection from distinct keys has distinct keys |
| Ranker.InsertMultiset | word_frequency_sorter.py:109 | insertion adds exactly the new item |
| Ranker.InsertNonIncreasing | word_frequency_sorter.py:109 | insertion keeps the counts non-increasing |
| Ranker.InsertWithCount | word_frequency_sorter.py:109 | the new item goes after every item of its own count; other counts' orders are unchanged |
| Ranker.InsertDistinct | word_frequency_sorter.py:109 | inserting a new key keeps keys distinct |
| Ranker.RankSpec | word_frequency_sorter.py:109 | `sorted(..., key=count, reverse=True)` is a permutation, non-increasing by count, and stable |
| Ranker.RankMembers | word_frequency_sorter.py:109 | the ranking holds exactly the dict's items |
| Ranker.RankDistinct | word_frequency_sorter.py:109 | the ranking lists each key once |
| Ranker.StableSortIsUnique | word_frequency_sorter.py:109 | two non-increasing orders with the same order within each count are equal |
| Ranker.SameHead | word_frequency_sorter.py:109 | such orders start with the same item |
| Ranker.SameTail | word_frequency_sorter.py:109 | after that item they still agree within each count |
| Ranker.RankIsTheStableSort | word_frequency_sorter.py:109 | any stable descending sort by count gives this ranking |
| Ranker.CountIndexAt | word_frequency_sorter.py:109 | an item's rank among the items of its count locates it in the selection |
| Ranker.CountIndexGrows | word_frequency_sorter.py:109 | later positions have more items of a count before them |
| Ranker.SelectionOrder | word_frequency_sorter.py:109 | two sequences with distinct keys and the same selection for a count list that count's items in the same order |
| Ranker.RankKeepsTieOrder | word_frequency_sorter.py:109 | items with equal counts keep the dict's order |
| Ranker.RankOfCounts | word_frequency_sorter.py:109 | ranking a record of counts: each word once with its exact count, counts non-increasing, ties in first-occurrence order |
| Ranker.RankedWords | word_frequency_sorter.py:109-110 | one printed word per item |
| Ranker.RankedPairs | wordcount.py:31-32 | one printed `count word` pair per item |
| WordCount.SetDefaultThenIncrement | wordcount.py:25-26 | `setdefault(word, 0)` then `+= 1` is exactly Counter's step |
| WordCount.LoopStep | wordcount.py:24-26 | one pass of the loop body turns the counts of the words seen into the counts of one more word |
| WordCount.GenerateCount | wordcount.py:22-27 | `generate_count` returns the frequency table of the words (exact counts, only words that occur, first-occurrence order), equal to `Counter(words)` |
| WordCount.RankedPairsReport | wordcount.py:31-32 | the printed pairs give every word once with its count, counts non-increasing, ties in first-occurrence order |
| WordCount.EveryWordRanked | wordcount.py:31-32 | every word of the text is printed |
| WordCount.ProcessFile | wordcount.py:5-7 | the whole script: its printed pairs are the report of the text's tokens |
| WordFrequencySorter.Frequencies | word_frequency_sorter.py:33-36 | the dict handed to `print_result` holds, in first-occurrence order, exact counts of tokens of the text; `WordFrequencySorter.FrequenciesSpec` states which tokens are keys |
| WordFrequencySorter.ProcessFile | word_frequency_sorter.py:33-36 | `process_file` prints no word twice; `WordFrequencySorter.ProcessFileSpec` states all it prints |
| WordFrequencySorter.FrequenciesSpec | word_frequency_sorter.py:33-36 | the dict handed to `print_result` holds exact counts, and its keys are the tokens not excluded by the filter |
| WordFrequencySorter.RankedWordsSpec | word_frequency_sorter.py:109-110 | the printed words: each key once, by count from highest, ties in first-occurrence order |
| WordFrequencySorter.ProcessFileSpec | word_frequency_sorter.py:33-36 | the printed words are exactly the tokens not excluded by the filter, each once, lower-case tokens, by non-increasing count, ties in first-occurrence order |
| WordFrequencySorter.NoKeptLinesPrintsNothing | word_frequency_sorter.py:33-36 | when no line survives the line filter nothing is printed |
| WordFrequencySorter.SymbolTextPrintsNothing | word_frequency_sorter.py:33-36 | a text whose only line is `!!! 123 --- ???` prints nothing |

## Left out

- Command-line parsing is not modelled: `get_command_line_input` and the `sys.argv` handling of `wordcount.py`. It is library and I/O glue.
- File I/O in `process_file` is not modelled. This covers the encoding retry loop with its `input()` prompt and its broad `except` clauses. Each script's input is instead given as the list of lines `readlines()` returns.
- The file reading in `filter_words` and its `IOError` and bare `except` branches are not modelled. Those branches print a message and return `None`. The filter file is given as its list of lines, wrapped in `Option` for the `--filter` option.
- Printing is not modelled. The model returns the printed sequence: the words (`print(k)`) or the `(count, word)` pairs (`print(v, k)`). Integer-to-string rendering is left out.
- Chars.IsWordChar: the regex class `\w` is restricted to ASCII letters, digits and `_`. Python also counts non-ASCII letters and digits as word characters. So a non-ASCII letter separates words in the model but not in the scripts.
- Chars.IsDigit: `\d` is restricted to ASCII digits. Python also matches other Unicode decimal digits.
- Chars.Lower: `str.lower()` maps only `A`–`Z`. Non-ASCII case mappings, including those that change a string's length, are not modelled.
- Ranker.Rank: computes `sorted`'s result by insertion, not by Timsort. `Ranker.RankIsTheStableSort` shows that both give the same order.
- The unused `time` import has no behaviour to model.

None of the modelled counts can overflow: Python integers are unbounded, and the model uses `nat`.
