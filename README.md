# Words: a verified model of a word-frequency tally

The `Words` class keeps an in-memory tally of word frequencies in a
`LinkedHashMap<String, Long>`. The map goes from a trimmed, case-preserved
word to the number of times that word was added, and it remembers the order
in which words were first inserted. The class has four operations:

- `addWord` trims its argument. It counts the result only when that result
  is non-empty and made of letters.
- `addSentence` splits its argument on `;` and adds every piece in turn.
- `getWordCount` gives either the exact count of a word or, ignoring case,
  the sum of the counts of every key that lower-cases like the query.
- `getWordsMap` exposes the map.

The project has four modules:

- `JavaText` (`java_text.dfy`) models the parts of the Java string library
  the class relies on: `String.trim`, `Character.isLetter`,
  `String.toLowerCase` and `String.split` with a one-character delimiter.
  It proves what they return and how split and join undo each other.
- `Tally` (`tally.dfy`) models the map as a value, `OrderedCounts`: the keys
  in insertion order plus a map from key to count. It carries a validity
  invariant:
  - every key is listed once;
  - every key is a non-empty string of letters;
  - every count is at least 1.

  It defines what one addition, a run of additions and the two lookups do,
  and proves their properties.
- `Counter` (`words.dfy`) is the class itself. Its fields are the keys and
  the counts. Its methods update them in place, and their contracts tie the
  new state to the `Tally` functions. `addSentence` is a loop whose
  invariant says that the pieces processed so far have been added one after
  another.
- `Scenarios` (`scenarios.dfy`) states what the repository's unit tests
  expect and proves it from the general lemmas.

Where the class's documentation and its code differ, the model follows the
code:

- The Javadoc (`src/main/java/Words.java:6`, `:23`) speaks of English
  alphabetical characters. The code uses `Character::isLetter`, which admits
  every letter, accented ones included.
- The Javadoc (`:24`) speaks of trimming spaces. `String.trim` strips every
  character up to U+0020, control characters included.

## Model

| member | source | states |
|---|---|---|
| JavaText.LeadingSpaces | src/main/java/Words.java:28 | The count of characters `trim` strips from the front: all of them are up to U+0020, and the next one, if any, is not. |
| JavaText.TrailingStart | src/main/java/Words.java:28 | Where `trim` stops at the back: every character from there on is up to U+0020, and the one before it, if any, is not. |
| JavaText.Trim | src/main/java/Words.java:28 | The result is the infix of the input that remains after cutting characters up to U+0020 from both ends. Everything cut is such a character, and the result neither starts nor ends with one. |
| JavaText.TrimFixed | src/main/java/Words.java:28 | A string whose ends are not characters up to U+0020 trims to itself. |
| JavaText.TrimIdempotent | src/main/java/Words.java:28 | Trimming twice is trimming once. |
| JavaText.LetterIsNotTrimSpace | src/main/java/Words.java:28-29 | No letter is a character `trim` strips. |
| JavaText.ToLowerChar | src/main/java/Words.java:52 | Lower-casing a character keeps letters letters and non-letters non-letters. It only changes upper-case letters. |
| JavaText.ToLower | src/main/java/Words.java:52 | Lower-casing keeps the length and lower-cases every character in place. |
| JavaText.ToLowerCharIdempotent | src/main/java/Words.java:52 | Lower-casing a lower-cased character changes nothing. |
| JavaText.ToLowerIdempotent | src/main/java/Words.java:52 | Lower-casing a lower-cased string changes nothing. |
| JavaText.Split | src/main/java/Words.java:65 | Splitting on a character gives at least one piece, and no piece contains the delimiter. |
| JavaText.SplitThenJoin | src/main/java/Words.java:65 | Joining the pieces of a split with the delimiter gives back the original string. |
| JavaText.SplitWithoutDelimiter | src/main/java/Words.java:65 | A string without the delimiter splits into itself alone. |
| JavaText.JoinThenSplit | src/main/java/Words.java:65 | Splitting the join of delimiter-free pieces gives back the pieces. |
| JavaText.DropTrailingEmpty | src/main/java/Words.java:65 | The result is a prefix of the pieces that does not end in an empty piece. Every piece dropped is empty. |
| JavaText.JavaSplit | src/main/java/Words.java:65 | A string without `;` is returned whole. Otherwise the result is a prefix of the plain split whose last piece is non-empty, and every dropped piece is empty. |
| Tally.WordIsTrimmed | src/main/java/Words.java:28-29 | A string that passes the filter has no leading or trailing character up to U+0020, so it is stored exactly as trimmed. |
| Tally.OrderedCounts.Merge | src/main/java/Words.java:30 | `merge(w, 1, sum)` raises the count of `w` by exactly 1 and leaves every other count alone. The old keys stay a prefix. On a valid map, `w` is appended iff it was absent, and validity is kept when `w` is a word. |
| Tally.OrderedCounts.AddWord | src/main/java/Words.java:27-32 | Adding keeps the invariant. The map changes iff the trimmed argument passes the filter. The old keys keep their positions, and no count goes down. |
| Tally.OrderedCounts.AddWords | src/main/java/Words.java:64-67 | A run of additions keeps the invariant and the old key order, and never lowers a count. |
| Tally.AddValidWord | src/main/java/Words.java:28-30 | When the trimmed word passes the filter, its count goes up by exactly 1 and every other count is unchanged. The keys are unchanged if the word was a key, and otherwise the word is appended at the end. |
| Tally.AddInvalidWord | src/main/java/Words.java:29 | When the trimmed word fails the filter, the map is unchanged. |
| Tally.AddWordsSnoc | src/main/java/Words.java:66 | Adding one more piece after a run is the run followed by that one addition. |
| Tally.AddWordsConcat | src/main/java/Words.java:66 | Adding two runs one after the other is adding their concatenation. |
| Tally.AddEmptyPieces | src/main/java/Words.java:29 | Empty pieces add nothing. |
| Tally.AddWordsTrailingEmpty | src/main/java/Words.java:65-66 | Empty pieces at the end of a run add nothing. |
| Tally.SentenceIsSplitThenAdd | src/main/java/Words.java:64-67 | Adding the pieces of Java's split of a sentence equals adding every `;`-separated piece, empty ones included. |
| Tally.ExactCountIsOccurrences | src/main/java/Words.java:30 | After a run of additions, the exact count of `w` is its old count plus the number of pieces that trim to `w`, provided `w` passes the filter. Otherwise the count is unchanged. |
| Tally.KeysAfterAdds | src/main/java/Words.java:27-31 | After a run of additions, `w` is a key iff it was one before, or it passes the filter and some piece trims to it. No key is ever removed. |
| Tally.FreshAfterFirst | src/main/java/Words.java:30 | Adding the first of some new, distinct words appends it, and the others stay new. |
| Tally.AddFreshWords | src/main/java/Words.java:30 | New, distinct words become keys in exactly the order in which they are added. |
| Tally.RepeatedWordCount | src/main/java/Words.java:30 | Adding the same word `n` times to a new map gives it an exact count of `n`. |
| Tally.RepeatedOccurrences | src/main/java/Words.java:30 | A word repeated `n` times occurs `n` times. |
| Tally.SumIgnoresUnlisted | src/main/java/Words.java:53-57 | The case-insensitive sum runs over the keys only, so the count of an unlisted string does not affect it. |
| Tally.SumUpdateListed | src/main/java/Words.java:53-57 | Changing the count of a key that is listed once swaps that key's term in the sum. |
| Tally.SumAtLeastTerm | src/main/java/Words.java:53-57 | The sum is at least the count of any listed key that lower-cases to the target. |
| Tally.SumZeroIff | src/main/java/Words.java:53-57 | With positive counts, the sum is 0 iff no listed key lower-cases to the target. |
| Tally.IgnoreCaseAtLeastExact | src/main/java/Words.java:48-57 | The case-insensitive count is never below the case-sensitive one. |
| Tally.IgnoreCaseZeroIff | src/main/java/Words.java:52-57 | The case-insensitive count is 0 iff no key lower-cases like the query. |
| Tally.IgnoreCaseQueryFolding | src/main/java/Words.java:52 | The case-insensitive count does not depend on how the query is cased. |
| Tally.SumIncrementListed | src/main/java/Words.java:53-57 | Raising a listed key's count by 1 raises the sum by 1 iff that key matches the target. |
| Tally.SumAppendNew | src/main/java/Words.java:53-57 | Appending a new key with count 1 raises the sum by 1 iff that key matches the target. |
| Tally.MergeIgnoreCaseSum | src/main/java/Words.java:30 | `merge` of `w` raises the case-insensitive sum for a target by 1 iff `w` lower-cases to it. |
| Tally.IgnoreCaseAfterAdd | src/main/java/Words.java:27-57 | One addition raises the case-insensitive count of a query by 1 iff the trimmed word passes the filter and lower-cases like the query. |
| Tally.IgnoreCaseCountIsFoldedOccurrences | src/main/java/Words.java:52-57 | After a run of additions, the case-insensitive count of a query is its old value plus the number of pieces that pass the filter and lower-case like the query. |
| Counter.Words.constructor | src/main/java/Words.java:18-20 | A new tally is valid and empty. |
| Counter.Words.GetWordsMap | src/main/java/Words.java:38-40 | The view holds exactly the tally's keys, in insertion order, and its counts. |
| Counter.Words.Merge | src/main/java/Words.java:30 | The in-place `merge` keeps the invariant and leaves the tally equal to `OrderedCounts.Merge` of the old one. |
| Counter.Words.AddWord | src/main/java/Words.java:27-32 | `addWord` keeps the invariant and leaves the tally equal to `OrderedCounts.AddWord` of the old one. A word that fails the filter leaves both fields untouched. |
| Counter.Words.AddSentence | src/main/java/Words.java:64-67 | The loop over the split pieces keeps the invariant. It leaves the tally equal to adding Java's split pieces in order, and so equal to adding every `;`-separated piece. |
| Counter.Words.GetWordCount | src/main/java/Words.java:48-58 | The query changes nothing and equals `OrderedCounts.Count`. Case-sensitive, it is positive exactly when the word is a key. Ignoring case, it is at least the exact count, and it is 0 exactly when no key lower-cases like the word. |
| Scenarios.FirstWord | src/main/java/Words.java:27-32 | The first accepted word becomes the only key of a new tally, in trimmed form. |
| Scenarios.RejectsNonLetter | src/main/java/Words.java:28-29 | A string that trim leaves alone and that contains a non-letter is rejected. |
| Scenarios.PaddedWordTrim | src/main/java/Words.java:28 | A word preceded by one space trims to the word. |
| Scenarios.DistinctCounts | src/main/java/Words.java:30 | Three different words added once each are each counted once. |
| Scenarios.MixedCounts | src/main/java/Words.java:30 | The pattern a, b, a, c, a, a, b counts a 4 times, b twice and c once. |
| Scenarios.FoldedThree | src/main/java/Words.java:52-55 | Three words that lower-case to `t` fold to `t` three times. |
| Scenarios.FreshIgnoreCaseCount | src/main/java/Words.java:52-57 | From a new tally, the case-insensitive count is the number of added words that lower-case like the query. |
| Scenarios.TwiceThenOnce | src/main/java/Words.java:30 | Adding a word twice and then another word gives keys [a, b] with counts 2 and 1. |
| Scenarios.FoldThree | src/main/java/Words.java:66 | Adding three pieces is three single additions in order. |
| Scenarios.NewKey | src/main/java/Words.java:30 | A word whose trimmed form is new is appended to the keys. |
| Scenarios.ThreeDistinct | src/main/java/Words.java:30 | Three words with different trimmed forms become the keys in the order added. |
| Scenarios.SkipsRejected | src/main/java/Words.java:29 | In six pieces whose second to fourth are rejected, only the other three are added. |
| Scenarios.SplitSeven | src/test/java/WordsTests.java:76 | `Test;sentence;with;some;words;and;separators` splits into its seven words. |
| Scenarios.SplitRepeat | src/test/java/WordsTests.java:76 | `word;word;test` splits into word, word and test. |
| Scenarios.SplitRejected | src/test/java/WordsTests.java:76 | `test;;123;-; word;WORD` splits into six pieces, one of them empty. |
| Scenarios.WordAddedOnce | src/test/java/WordsTests.java:28-34 | "Test", " word" and "COUNT" each give a new tally exactly one key: the trimmed word. |
| Scenarios.OnlyLettersAllowed | src/test/java/WordsTests.java:36-41 | "123", "test-2", "123TEST", "" and "w o r d" leave a new tally empty. |
| Scenarios.MixedWords | src/test/java/WordsTests.java:43-50 | cat, dog, cat, bird, cat, cat, dog counts cat 4, dog 2 and bird 1. |
| Scenarios.CaseVariantsExact | src/test/java/WordsTests.java:52-58 | After cat, Cat and CAT, each has an exact count of 1. |
| Scenarios.CaseVariantsIgnoreCase | src/test/java/WordsTests.java:60-66 | After cat, Cat and CAT, each has a case-insensitive count of 3. |
| Scenarios.AbsentWord | src/test/java/WordsTests.java:68-73 | A new tally counts 0 for any word in both modes. |
| Scenarios.SentenceOfDistinctWords | src/test/java/WordsTests.java:75-80 | The seven-word sentence gives exactly seven keys, in sentence order. |
| Scenarios.SentenceWithRepeat | src/test/java/WordsTests.java:75-80 | `word;word;test` gives the keys word and test, with counts 2 and 1. |
| Scenarios.SentenceWithRejectedPieces | src/test/java/WordsTests.java:75-80 | `test;;123;-; word;WORD` gives exactly the keys test, word and WORD, in that order. |

## Left out

- `Character.isLetter` and `String.toLowerCase` are modelled exactly on the
  Latin-1 range (U+0000 to U+00FF). Above it, no character is a letter and
  lower-casing is the identity. So the model rejects words that Java accepts
  in other scripts. It also ignores locale-dependent lower-casing, such as
  the Turkish dotless i, and lower-casing that changes a string's length,
  such as U+0130.
- Strings are sequences of whole characters. Java's UTF-16 code units and
  surrogate pairs are not modelled.
- `String.split(";")` is modelled for its literal one-character delimiter
  only. The general regular-expression semantics of `split` are not.
- Counter.Words.Merge: counts are unbounded natural numbers. The 64-bit
  `long` overflow after 2^63 − 1 additions of one word is not modelled.
- Counter.Words.GetWordsMap: returns a snapshot value of the map rather than
  the live `LinkedHashMap`. Changes a caller could make through the returned
  reference, and the aliasing that allows them, are not modelled.
- The `Stream` pipelines are modelled by what they compute. The filter-and-sum
  of `getWordCount` is a recursive sum over the keys. The `forEach` of
  `addSentence` is a loop over the pieces.
- `null` arguments do not exist in the model. In Java they make `addWord`,
  `addSentence` and the case-insensitive `getWordCount` throw, while
  `getWordCount(null, true)` returns 0.
- The unit tests are not modelled as code. Their expectations are the lemmas
  of `Scenarios`.
