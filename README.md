# find-words, modelled in Dafny

`find-words` is a small Rust library. It finds the words of a dictionary
that can be spelt from a pool of letters. The pool is count-sensitive:
from "bde" you can spell "bed" but not "deed", because "deed" needs two
e's. The library has three core operations:

- `get_letters_count` turns a string into a letter-frequency map. It
  lowers ASCII letters, drops every character that is not an ASCII letter,
  and folds the rest into a map by incrementing one counter per letter.
- `can_be_constructed` decides whether a word's map fits a pool's map. An
  empty word never fits. Otherwise every letter of the word must be in the
  pool with at least as many copies.
- `get_constructable_words` keeps, in input order, the text of every
  dictionary `Word` that fits the pool. The source evaluates this in
  parallel with rayon, whose collect joins the results of its splits in
  input order.

`read_words_from_file` builds the dictionary, one `Word` per line of a
file.

The project has four modules:

- `Ascii` (`ascii.dfy`) models the character helpers of the Rust standard
  library that the counter uses: `to_ascii_lowercase`,
  `is_ascii_alphabetic`, and the `filter` over a string.
- `FindWords` (`find_words.dfy`) models the library itself:
  - `Word` is a datatype, and letter maps are `map<char, nat>`.
  - `LettersCount` is a recursive specification of the fold.
  - `GetLettersCount` is the loop of the fold. Its accumulator is a local
    map variable that each step rebinds to the map with one count
    incremented. It is proved equal to `LettersCount`.
  - `CanBeConstructed` is the predicate and `GetConstructableWords` the
    filter.
  - `ReadWordsFromFile` is the ingestion loop. Its I/O results are passed
    in as parameters.
  - The lemmas relate these to reference meanings: multisets of letters,
    sub-multisets, filtering that distributes over concatenation, and
    chunked (parallel) evaluation.
- `Overflow` (`overflow.dfy`) models the `u8` counters the source actually
  uses. It shows that they agree with exact counts below 256 occurrences of
  a letter, and gives the inputs on which they are wrong (see Findings).
- `SourceTests` (`source_tests.dfy`) proves the expectations of the unit
  tests in `src/lib.rs` and of the integration tests in
  `tests/find_words.rs` about the model.

## Model

| member | source | states |
|---|---|---|
| Ascii.IsAsciiAlphabetic | src/lib.rs:43 | definition with no contract of its own: a character passes the filter iff it is in 'A'..'Z' or 'a'..'z' |
| Ascii.ToAsciiLowercase | src/lib.rs:41 | the lowered string is as long as its input; its laws are the `ToAsciiLowercase` lemmas below |
| Ascii.FilterAlphabetic | src/lib.rs:43 | the filtered string is no longer than its input; what it keeps is stated by the `FilterAlphabetic` lemmas below |
| Ascii.ToLower | src/lib.rs:41 | lowering maps exactly the ASCII letters to lowercase letters, moves 'A'..'Z' by the fixed offset to 'a'..'z', and leaves every other character unchanged |
| Ascii.ToAsciiLowercaseIdempotent | src/lib.rs:41 | lowering an already lowered string changes nothing |
| Ascii.ToAsciiLowercaseConcat | src/lib.rs:41 | lowering works character by character, so it distributes over concatenation |
| Ascii.ToAsciiLowercaseOfLowercase | src/lib.rs:41 | a string of lowercase letters is its own lowered form |
| Ascii.FilterAlphabeticMembers | src/lib.rs:43 | the filter keeps only characters of its input, and only ASCII letters |
| Ascii.FilterAlphabeticConcat | src/lib.rs:43 | the filter distributes over concatenation, so it keeps order |
| Ascii.FilterAlphabeticOfNoise | src/lib.rs:43 | a string without ASCII letters filters to the empty string |
| Ascii.FilterAlphabeticEmpty | src/lib.rs:43 | conversely, an empty filter result means the input has no ASCII letter |
| Ascii.FilterAlphabeticOfLetters | src/lib.rs:43 | a string made only of ASCII letters passes the filter unchanged |
| Ascii.FilterAlphabeticOfLowercase | src/lib.rs:41-43 | lowering and filtering commute |
| Ascii.FilterAlphabeticKeepsLetters | src/lib.rs:43 | the filter keeps every occurrence of each ASCII letter |
| FindWords.Word | src/lib.rs:34-37 | datatype with no contract: a word's text and its letter counts, with unbounded counts in place of `u8` |
| FindWords.Letters | src/lib.rs:41-43 | definition with no contract of its own: the lowered string filtered to ASCII letters; `LettersAreLowercase` states what reaches the fold |
| FindWords.Bump | src/lib.rs:45-46 | definition with no contract of its own: `entry(c).or_insert(0)` then `+= 1`, a missing key read as 0; `TotalBump` states its effect |
| FindWords.Tally | src/lib.rs:44-48 | definition with no contract of its own: the fold of `Bump` from the first character to the last, starting from the empty map; `TallyIsMultiset` states its meaning |
| FindWords.LettersCount | src/lib.rs:40-49 | definition with no contract of its own: `Tally` of `Letters`; `LettersCountCountsOccurrences` and `LettersCountShape` state its meaning |
| FindWords.LettersAreLowercase | src/lib.rs:41-43 | only lowercase ASCII letters reach the fold |
| FindWords.GetLettersCount | src/lib.rs:40-49 | the loop that bumps one counter per kept character returns exactly the fold `LettersCount` |
| FindWords.CountStep | src/lib.rs:43-47 | one more scanned character bumps its counter if it is an ASCII letter, and otherwise changes nothing |
| FindWords.TallyIsMultiset | src/lib.rs:44-48 | the fold's keys are exactly the counted characters, and each count is that character's number of occurrences |
| FindWords.LettersCountCountsOccurrences | src/lib.rs:40-49 | a character is a key iff it is a lowercase letter that occurs in the lowered string, and its count is its number of occurrences there (0 otherwise) |
| FindWords.TotalBump | src/lib.rs:45-46 | one increment adds exactly one to the sum of the counts |
| FindWords.TallyTotal | src/lib.rs:44-48 | the counts of the fold sum to the number of characters folded |
| FindWords.TallyPositive | src/lib.rs:44-48 | every key of the fold is a folded character with count at least 1 |
| FindWords.LettersCountShape | src/lib.rs:40-49 | keys are lowercase ASCII letters with count at least 1; the counts sum to the number of ASCII letters of the input; the map is empty iff the input has no ASCII letter |
| FindWords.LettersCountEmpty | src/lib.rs:100-105 | `empty_string`: the empty string gives the empty map |
| FindWords.LettersCountIgnoresCase | src/lib.rs:41 | two strings that agree character by character up to ASCII case give the same map |
| FindWords.LettersCountOfLowercase | src/lib.rs:41 | a string and its lowered form give the same map |
| FindWords.LettersCountIgnoresNoise | src/lib.rs:43 | inserting characters that are not ASCII letters anywhere in a string leaves its map unchanged |
| FindWords.CanBeConstructed | src/lib.rs:52-58 | definition with no contract of its own: false for the empty word map, otherwise every key of the word is in the pool with at least its count; the lemmas below state its laws |
| FindWords.EmptyWordNeverFits | src/lib.rs:53 | an empty word map fits no pool, not even a non-empty one |
| FindWords.NothingFitsEmptyPool | src/lib.rs:54-57 | no word fits the empty pool |
| FindWords.ShortPoolFails | src/lib.rs:54-57 | a word with a letter that the pool lacks, or has fewer copies of, does not fit |
| FindWords.CanBeConstructedReflexive | src/lib.rs:54-56 | every non-empty letter map fits itself |
| FindWords.CanBeConstructedTransitive | src/lib.rs:54-57 | if a fits b and b fits c, then a fits c |
| FindWords.CanBeConstructedMissingIsZero | src/lib.rs:52-58 | for maps with positive counts, fitting is: the word is non-empty and every count of the word is at most the pool's count, a missing key counting as zero |
| FindWords.CanBeConstructedIsSubMultiset | src/lib.rs:52-58 | a word fits a pool iff the word has a letter and the multiset of its letters is contained in the multiset of the pool's letters |
| FindWords.GetConstructableWords | src/lib.rs:78-84 | the output is no longer than the input |
| FindWords.GetConstructableWordsConcat | src/lib.rs:79-83 | filtering a concatenation is concatenating the filtered parts, so the filter keeps input order |
| FindWords.GetConstructableWordsSingle | src/lib.rs:80-82 | a one-word list gives that word's text exactly when its letters fit |
| FindWords.GetConstructableWordsMembership | src/lib.rs:78-84 | a string is in the output iff some input word with that text fits the pool |
| FindWords.GetConstructableWordsAll | src/lib.rs:78-84 | when every word fits, the output is the texts of all words, in order |
| FindWords.GetConstructableWordsNone | src/lib.rs:78-84 | when no word fits, the output is empty |
| FindWords.ChunkedEvaluation | src/lib.rs:79-83 | filtering chunk by chunk and joining the results in chunk order, as rayon's collect joins the results of its splits, gives the sequential result |
| FindWords.WordOf | src/lib.rs:69-70 | definition with no contract of its own: the Word of a line's text and its LettersCount; WordOfLetters states its meaning |
| FindWords.WordOfLetters | src/lib.rs:68-70 | the word built from a line keeps the line verbatim as its text; a character is a key of its letters iff it is a lowercase letter of the lowered line, and its count is its number of occurrences there (0 otherwise) |
| FindWords.ReadWordsFromFile | src/lib.rs:61-74 | a failed open is returned as is; on success every line was read and became, in order, the word of its text and its letter counts; an error result is the error of a line such that every earlier line was read |
| Overflow.BumpU8 | src/lib.rs:45-46 | definition with no contract of its own: the release-build increment, modulo 256 |
| Overflow.TallyU8 | src/lib.rs:44-48 | definition with no contract of its own: the fold of `BumpU8`; `TallyU8Wraps` states its meaning |
| Overflow.LettersCountU8 | src/lib.rs:40-49 | definition with no contract of its own: `TallyU8` of `Letters`; `LettersCountU8Agrees` relates it to `LettersCount` |
| Overflow.TallyU8Wraps | src/lib.rs:44-48 | with `u8` counters the keys are the counted characters and each count is the number of occurrences modulo 256 |
| Overflow.TallyU8Agrees | src/lib.rs:44-48 | while no character occurs 256 times, the `u8` fold equals the exact fold |
| Overflow.LettersCountU8Agrees | src/lib.rs:40-49 | while no letter occurs 256 times, the `u8` letter counter equals the exact one |
| Overflow.OneLetterCounts | src/lib.rs:44-48 | a run of one letter is a single key whose count is the run's length exactly, and the length modulo 256 in `u8` |
| Overflow.ManyAsCounts | src/lib.rs:46 | 256 'a's count to 256 exactly but to a key 'a' with count 0 in `u8` |
| Overflow.OneACounts | src/lib.rs:40-49 | "a" counts to one 'a' in both counters |
| Overflow.WrappedPoolRejectsA | src/lib.rs:46 | a pool of 256 'a's holds "a", but with `u8` counts it is rejected |
| Overflow.WrappedWordFitsA | src/lib.rs:46 | 256 'a's cannot be spelt from "a", but with `u8` counts they fit |
| SourceTests.OnlyLowercaseTest | src/lib.rs:107-117 | `only_lowercase`: "dodge" gives {d:2, o:1, g:1, e:1} |
| SourceTests.OnlyUppercaseTest | src/lib.rs:119-129 | `only_uppercase`: "DODGE" gives the same map |
| SourceTests.MixedCaseTest | src/lib.rs:131-141 | `mixed_case`: "doDGe" gives the same map |
| SourceTests.AlphanumericTest | src/lib.rs:143-153 | `alphanumeric`: "dod123ge" gives the same map |
| SourceTests.ContainsWhitespacesTest | src/lib.rs:155-165 | `contains_whitespaces`: tabs, spaces and a newline around "dod" and "ge" are ignored |
| SourceTests.ContainsPunctuationTest | src/lib.rs:167-177 | `contains_punctuation`: "do,dg!#$%^e" gives the same map |
| SourceTests.WrongCountTest | src/lib.rs:179-190 | `wrong_count` (a should-panic test): "dodgy" does not give that map |
| SourceTests.WordCanBeConstructedTest | src/lib.rs:197-203 | `word_can_be_constructed`: "dog" fits "dodge" |
| SourceTests.WordCannotBeConstructedTest | src/lib.rs:205-212 | `word_cannot_be_constructed` (should panic): "dodgy" does not fit "dodge" |
| SourceTests.EmptyListTest | src/lib.rs:214-221 | `empty_list` (should panic): "something" does not fit the empty pool |
| SourceTests.EmptyStringForWordTest | src/lib.rs:223-230 | `empty_string_for_word` (should panic): the empty word does not fit "list" |
| SourceTests.MammalFitsItself | src/lib.rs:54-56 | "mammal", which has repeated letters, fits its own letters |
| SourceTests.MammalNeedsThreeMs | src/lib.rs:54-57 | "mammal" does not fit "mamal", which has one 'm' too few |
| SourceTests.FilterSeven | src/lib.rs:78-84 | the filter over seven words is, word by word, each word's text or nothing |
| SourceTests.FourLetterPoolTest | tests/find_words.rs:3-13 | `find_words_in_4_letter_list`: pool "cmbl" keeps none of the seven expected words |
| SourceTests.EightLetterPoolTest | tests/find_words.rs:15-28 | `find_words_in_8_letter_list`: of the seven expected words, pool "wartsmrf" keeps exactly ["arm", "art"], in order |
| SourceTests.TwentyLetterPoolTest | tests/find_words.rs:30-43 | `find_words_in_20_letter_list`: of the seven expected words, pool "fsucwcaumvxvkfvpbkjw" keeps exactly ["back", "camp", "cap", "cub", "cup"], in order |
| SourceTests.ReadSixLines | src/lib.rs:61-74 | ingesting six lines that all read without error gives their six words, in order |
| SourceTests.SuccessfullyReadTest | src/lib.rs:299-356 | `successfully_read`: the lines cow, dog, milk, cat, goat and mammal become the six words with the letter maps the test spells out |
| SourceTests.FileDoesNotExistTest | src/lib.rs:358-363 | `file_does_not_exist`: a file that cannot be opened gives an error |

## Left out

- GetLettersCount: counts are unbounded naturals, not `u8`. The release-build wrap-around of the source is modelled in `Overflow`, and the debug-build panic is not modelled (see Findings).
- ReadWordsFromFile: `File::open` and `BufReader::lines` are foreign I/O. Their outcomes are a parameter, namely the open result and the sequence of line results.
- `generate_random_string` (`src/lib.rs:88-92`) depends on `thread_rng`, so it is nondeterministic. It and its tests (`src/lib.rs:234-285`) are not modelled.
- Rayon's thread pool in `get_constructable_words` is not modelled. Only its order-preserving combine is, by `ChunkedEvaluation`.
- `words.txt`, which the integration tests read, is not part of this model. Those scenarios are stated over a dictionary of just the seven words the tests expect. They show which of these the pool keeps, not that no other word of the file fits.
- `src/test_read_from_file.txt` is not part of this model. Its lines are taken from the words `successfully_read` expects.
- `src/bin/find_words.rs` (the command-line program that prints results) and `benches/find_words_benchmark.rs` (Criterion benchmarks) are outside the core.

## Findings

| source | as written | input that shows it | evidently intended | confidence | as-written member | corrected member |
|---|---|---|---|---|---|---|
| src/lib.rs:46 | each count is a `u8`, and `*count += 1` on 255 wraps to 0 in a release build (a debug build panics) | a pool of 256 'a's: its count for 'a' becomes 0, so the word "a" is rejected | counts that never wrap, so the pool holds as many copies as the string has | not executed | Overflow.WrappedPoolRejectsA | FindWords.CanBeConstructedIsSubMultiset |
| src/lib.rs:46 | the same wrap makes a word's count 0 while its key stays in the map | the word of 256 'a's against the pool "a": its count of 0 passes the `>=` check | a word with more copies of a letter than the pool does not fit | not executed | Overflow.WrappedWordFitsA | FindWords.CanBeConstructedIsSubMultiset |
