/**
 The word-constructability filter of `src/lib.rs`: a letter-frequency
 counter (`get_letters_count`), the count-sensitive dominance test
 (`can_be_constructed`), the order-preserving filter over a word list
 (`get_constructable_words`) and the ingestion loop of
 `read_words_from_file`, with the file's I/O results given as parameters.

 Counts are unbounded here; `Overflow` models the source's `u8` counters.
 */
module FindWords {
  import opened Ascii

  /** A letter-frequency map (`HashMap<char, u8>` in the source). */
  type LetterCounts = map<char, nat>

  /** `struct Word`: a dictionary entry and the letter counts derived from it. */
  datatype Word = Word(value: string, letters: LetterCounts)

  /** The I/O error that `File::open` or `BufReader::lines` may report. */
  datatype IoError = IoError(message: string)

  datatype Result<T> = Ok(value: T) | Err(error: IoError)

  // ---------------------------------------------------------------------
  // get_letters_count
  // ---------------------------------------------------------------------

  /** The characters the counter folds over: the lowered string, ASCII letters only. */
  function Letters(s: string): string {
    FilterAlphabetic(ToAsciiLowercase(s))
  }

  /** Only lowercase ASCII letters are left to be counted. */
  lemma LettersAreLowercase(s: string)
    ensures forall c :: c in Letters(s) ==> IsAsciiLowercase(c)
  {
    var lower := ToAsciiLowercase(s);
    FilterAlphabeticMembers(lower);
    assert forall c :: c in lower ==> IsAsciiAlphabetic(c) ==> IsAsciiLowercase(c);
  }

  /** The count the map holds for `c`, with a missing key read as 0. */
  function CountOf(m: LetterCounts, c: char): nat {
    if c in m then m[c] else 0
  }

  /** One fold step: `*map.entry(c).or_insert(0) += 1`. */
  function Bump(m: LetterCounts, c: char): LetterCounts {
    m[c := CountOf(m, c) + 1]
  }

  /** The fold of `Bump` over `t` from its first character to its last, starting at the empty map. */
  function Tally(t: string): LetterCounts {
    if t == [] then map[] else Bump(Tally(t[..|t| - 1]), t[|t| - 1])
  }

  /** `get_letters_count(word)`. */
  function LettersCount(s: string): LetterCounts {
    Tally(Letters(s))
  }

  /** Some key of a non-empty map: the one `Total` takes off first. */
  ghost function SomeKey(m: LetterCounts): char
    requires m != map[]
  {
    var k :| k in m; k
  }

  /** The sum of all counts of a map. */
  ghost function Total(m: LetterCounts): nat
    decreases |m|
  {
    if m == map[] then 0
    else
      var k := SomeKey(m);
      assert (m - {k}).Keys == m.Keys - {k};
      m[k] + Total(m - {k})
  }

  /**
   `get_letters_count` as the source runs it: lower the string, then walk its
   characters and bump the counter of every ASCII letter in a local map
   variable that each step rebinds.
   */
  method GetLettersCount(word: string) returns (letters: LetterCounts)
    ensures letters == LettersCount(word)
  {
    var lower := ToAsciiLowercase(word);
    letters := map[];
    var i := 0;
    while i < |lower|
      invariant 0 <= i <= |lower|
      invariant letters == Tally(FilterAlphabetic(lower[..i]))
    {
      var c := lower[i];
      assert lower[..i + 1] == lower[..i] + [c];
      CountStep(lower[..i], c);
      if IsAsciiAlphabetic(c) {
        var count := if c in letters then letters[c] else 0;
        letters := letters[c := count + 1];
      }
      i := i + 1;
    }
    assert lower[..|lower|] == lower;
  }

  /** One more scanned character bumps its counter when it is an ASCII letter and is skipped otherwise. */
  lemma CountStep(t: string, c: char)
    ensures Tally(FilterAlphabetic(t + [c])) ==
              if IsAsciiAlphabetic(c) then Bump(Tally(FilterAlphabetic(t)), c) else Tally(FilterAlphabetic(t))
  {
    var kept := FilterAlphabetic(t);
    FilterAlphabeticConcat(t, [c]);
    assert [c][1..] == [];
    if IsAsciiAlphabetic(c) {
      assert (kept + [c])[..|kept|] == kept;
    } else {
      assert kept + [] == kept;
    }
  }

  /**
   The reference meaning of the fold: the map holds exactly the characters of
   `t`, each with its number of occurrences.
   */
  lemma {:induction false} TallyIsMultiset(t: string)
    ensures forall c :: c in Tally(t) <==> c in multiset(t)
    ensures forall c :: CountOf(Tally(t), c) == multiset(t)[c]
  {
    if t != [] {
      var p, c := t[..|t| - 1], t[|t| - 1];
      assert t == p + [c];
      TallyIsMultiset(p);
    }
  }

  /**
   Each count of `get_letters_count(s)` is the number of characters of `s` whose
   ASCII-lowered form is that letter, and only lowercase ASCII letters are keys.
   */
  lemma LettersCountCountsOccurrences(s: string, c: char)
    ensures c in LettersCount(s) <==> IsAsciiLowercase(c) && c in multiset(ToAsciiLowercase(s))
    ensures CountOf(LettersCount(s), c) == if IsAsciiLowercase(c) then multiset(ToAsciiLowercase(s))[c] else 0
  {
    TallyIsMultiset(Letters(s));
    LettersAreLowercase(s);
    if IsAsciiLowercase(c) {
      FilterAlphabeticKeepsLetters(ToAsciiLowercase(s), c);
    } else {
      assert c !in multiset(Letters(s));
    }
  }

  /** Removing any key takes its count off the total, whichever key `Total` picked first. */
  lemma TotalRemove(m: LetterCounts, k: char)
    requires k in m
    ensures Total(m) == m[k] + Total(m - {k})
    decreases |m|
  {
    var j := SomeKey(m);
    assert (m - {j}).Keys == m.Keys - {j};
    if j != k {
      assert (m - {k}).Keys == m.Keys - {k};
      TotalRemove(m - {j}, k);
      TotalRemove(m - {k}, j);
      assert m - {j} - {k} == m - {k} - {j};
    }
  }

  /** One fold step adds exactly one to the total. */
  lemma TotalBump(m: LetterCounts, c: char)
    ensures Total(Bump(m, c)) == Total(m) + 1
  {
    var r := Bump(m, c);
    TotalRemove(r, c);
    if c in m {
      TotalRemove(m, c);
      assert r - {c} == m - {c};
    } else {
      assert r - {c} == m;
    }
  }

  lemma {:induction false} TallyTotal(t: string)
    ensures Total(Tally(t)) == |t|
  {
    if t != [] {
      TallyTotal(t[..|t| - 1]);
      TotalBump(Tally(t[..|t| - 1]), t[|t| - 1]);
    }
  }

  lemma {:induction false} TallyPositive(t: string)
    ensures forall c :: c in Tally(t) ==> c in t && Tally(t)[c] >= 1
  {
    if t != [] {
      TallyPositive(t[..|t| - 1]);
    }
  }

  /**
   The shape of a letter-frequency map: its keys are lowercase ASCII letters
   with counts of at least 1, the counts add up to the number of ASCII letters
   of the input, and the map is empty exactly when the input has no ASCII letter.
   */
  lemma LettersCountShape(s: string)
    ensures forall c :: c in LettersCount(s) ==> IsAsciiLowercase(c) && LettersCount(s)[c] >= 1
    ensures Total(LettersCount(s)) == |FilterAlphabetic(s)|
    ensures LettersCount(s) == map[] <==> forall i :: 0 <= i < |s| ==> !IsAsciiAlphabetic(s[i])
  {
    TallyPositive(Letters(s));
    LettersAreLowercase(s);
    TallyTotal(Letters(s));
    FilterAlphabeticOfLowercase(s);
    if forall i :: 0 <= i < |s| ==> !IsAsciiAlphabetic(s[i]) {
      FilterAlphabeticOfNoise(s);
    } else if LettersCount(s) == map[] {
      assert Total(LettersCount(s)) == 0;
      FilterAlphabeticEmpty(s);
    }
  }

  /** The empty string gives the empty map. */
  lemma LettersCountEmpty()
    ensures LettersCount("") == map[]
  {
  }

  /** Strings that agree up to ASCII case have the same letter counts. */
  lemma LettersCountIgnoresCase(s: string, t: string)
    requires |s| == |t|
    requires forall i :: 0 <= i < |s| ==> ToLower(s[i]) == ToLower(t[i])
    ensures LettersCount(s) == LettersCount(t)
  {
    assert ToAsciiLowercase(s) == ToAsciiLowercase(t);
  }

  /** In particular a string and its lowered form have the same letter counts. */
  lemma LettersCountOfLowercase(s: string)
    ensures LettersCount(ToAsciiLowercase(s)) == LettersCount(s)
  {
    ToAsciiLowercaseIdempotent(s);
  }

  /** Inserting characters that are not ASCII letters anywhere leaves the counts unchanged. */
  lemma LettersCountIgnoresNoise(a: string, noise: string, b: string)
    requires forall i :: 0 <= i < |noise| ==> !IsAsciiAlphabetic(noise[i])
    ensures LettersCount(a + noise + b) == LettersCount(a + b)
  {
    ToAsciiLowercaseConcat(a + noise, b);
    ToAsciiLowercaseConcat(a, noise);
    ToAsciiLowercaseConcat(a, b);
    var la, ln, lb := ToAsciiLowercase(a), ToAsciiLowercase(noise), ToAsciiLowercase(b);
    FilterAlphabeticConcat(la + ln, lb);
    FilterAlphabeticConcat(la, ln);
    FilterAlphabeticConcat(la, lb);
    assert forall i :: 0 <= i < |ln| ==> ln[i] == ToLower(noise[i]) && !IsAsciiAlphabetic(ln[i]);
    FilterAlphabeticOfNoise(ln);
    assert FilterAlphabetic(la) + [] == FilterAlphabetic(la);
  }

  // ---------------------------------------------------------------------
  // can_be_constructed
  // ---------------------------------------------------------------------

  /**
   `can_be_constructed(word, list)`: an empty word map never fits; otherwise
   every letter of the word must be in the list with at least as high a count.
   */
  predicate CanBeConstructed(word: LetterCounts, list: LetterCounts) {
    if word == map[] then false
    else forall c :: c in word ==> c in list && list[c] >= word[c]
  }

  /** The empty word map never fits, whatever the pool. */
  lemma EmptyWordNeverFits(list: LetterCounts)
    ensures !CanBeConstructed(map[], list)
  {
  }

  /** Nothing fits an empty pool. */
  lemma NothingFitsEmptyPool(word: LetterCounts)
    ensures !CanBeConstructed(word, map[])
  {
  }

  /** A missing pool letter, or a smaller pool count, makes a word not constructible. */
  lemma ShortPoolFails(word: LetterCounts, list: LetterCounts, c: char)
    requires c in word
    requires c !in list || list[c] < word[c]
    ensures !CanBeConstructed(word, list)
  {
  }

  /** Every non-empty map fits itself. */
  lemma CanBeConstructedReflexive(word: LetterCounts)
    requires word != map[]
    ensures CanBeConstructed(word, word)
  {
  }

  /** A word that fits a pool dominated by a larger pool fits the larger pool too. */
  lemma CanBeConstructedTransitive(a: LetterCounts, b: LetterCounts, c: LetterCounts)
    requires CanBeConstructed(a, b) && CanBeConstructed(b, c)
    ensures CanBeConstructed(a, c)
  {
  }

  /**
   For maps without zero counts (all those the counter produces), reading a
   missing pool letter as count 0 gives the same verdict.
   */
  lemma CanBeConstructedMissingIsZero(word: LetterCounts, list: LetterCounts)
    requires forall c :: c in word ==> word[c] >= 1
    ensures CanBeConstructed(word, list) <==>
              word != map[] && forall c :: c in word ==> CountOf(list, c) >= word[c]
  {
  }

  /**
   What the library promises: a word can be built from the pool's letters
   exactly when it has at least one letter and its multiset of letters is
   contained, count by count, in the pool's.
   */
  lemma CanBeConstructedIsSubMultiset(word: string, pool: string)
    ensures CanBeConstructed(LettersCount(word), LettersCount(pool)) <==>
              Letters(word) != [] && multiset(Letters(word)) <= multiset(Letters(pool))
  {
    var w, p := Letters(word), Letters(pool);
    TallyIsMultiset(w);
    TallyIsMultiset(p);
    if CanBeConstructed(LettersCount(word), LettersCount(pool)) {
      assert w != [];
      forall c ensures multiset(w)[c] <= multiset(p)[c] {
        assert CountOf(Tally(w), c) == multiset(w)[c];
        assert CountOf(Tally(p), c) == multiset(p)[c];
      }
    }
    if w != [] && multiset(w) <= multiset(p) {
      assert w[0] in multiset(w);
      assert Tally(w) != map[];
      forall c | c in Tally(w) ensures c in Tally(p) && Tally(p)[c] >= Tally(w)[c] {
        assert CountOf(Tally(w), c) == multiset(w)[c];
        assert CountOf(Tally(p), c) == multiset(p)[c];
      }
    }
  }

  // ---------------------------------------------------------------------
  // get_constructable_words
  // ---------------------------------------------------------------------

  /**
   `get_constructable_words(words, list)`: the values of the words whose
   letters fit the pool, in input order. The source evaluates the test in
   parallel with an order-preserving collect; `ChunkedEvaluation` shows that
   any split into chunks gives this same sequence.
   */
  function GetConstructableWords(words: seq<Word>, list: LetterCounts): (r: seq<string>)
    ensures |r| <= |words|
  {
    if words == [] then []
    else
      (if CanBeConstructed(words[0].letters, list) then [words[0].value] else [])
      + GetConstructableWords(words[1..], list)
  }

  /** Filtering a concatenation is concatenating the filtered parts: the filter keeps order. */
  lemma {:induction false} GetConstructableWordsConcat(a: seq<Word>, b: seq<Word>, list: LetterCounts)
    ensures GetConstructableWords(a + b, list) == GetConstructableWords(a, list) + GetConstructableWords(b, list)
  {
    if a == [] {
      assert a + b == b;
    } else {
      var ab := a + b;
      var head := if CanBeConstructed(a[0].letters, list) then [a[0].value] else [];
      assert ab[0] == a[0];
      assert ab[1..] == a[1..] + b;
      GetConstructableWordsConcat(a[1..], b, list);
      calc {
        GetConstructableWords(ab, list);
        head + GetConstructableWords(a[1..] + b, list);
        head + (GetConstructableWords(a[1..], list) + GetConstructableWords(b, list));
        (head + GetConstructableWords(a[1..], list)) + GetConstructableWords(b, list);
        GetConstructableWords(a, list) + GetConstructableWords(b, list);
      }
    }
  }

  /** A one-word list yields that word's value exactly when it fits. */
  lemma GetConstructableWordsSingle(w: Word, list: LetterCounts)
    ensures GetConstructableWords([w], list) == if CanBeConstructed(w.letters, list) then [w.value] else []
  {
    assert [w][1..] == [];
  }

  /** A string is in the result exactly when some input word with that value fits the pool. */
  lemma {:induction false} GetConstructableWordsMembership(words: seq<Word>, list: LetterCounts, v: string)
    ensures v in GetConstructableWords(words, list) <==>
              exists i :: 0 <= i < |words| && words[i].value == v && CanBeConstructed(words[i].letters, list)
  {
    if words != [] {
      GetConstructableWordsMembership(words[1..], list, v);
      if exists i :: 0 <= i < |words[1..]| && words[1..][i].value == v && CanBeConstructed(words[1..][i].letters, list) {
        var i :| 0 <= i < |words[1..]| && words[1..][i].value == v && CanBeConstructed(words[1..][i].letters, list);
        assert words[i + 1] == words[1..][i];
      }
      if exists i :: 0 <= i < |words| && words[i].value == v && CanBeConstructed(words[i].letters, list) {
        var i :| 0 <= i < |words| && words[i].value == v && CanBeConstructed(words[i].letters, list);
        if i > 0 {
          assert words[1..][i - 1] == words[i];
        }
      }
    }
  }

  /** The values of a word list, in order. */
  function Values(words: seq<Word>): seq<string>
  {
    seq(|words|, i requires 0 <= i < |words| => words[i].value)
  }

  /** When every word fits, the whole list of values comes back unchanged. */
  lemma {:induction false} GetConstructableWordsAll(words: seq<Word>, list: LetterCounts)
    requires forall i :: 0 <= i < |words| ==> CanBeConstructed(words[i].letters, list)
    ensures GetConstructableWords(words, list) == Values(words)
  {
    if words != [] {
      GetConstructableWordsAll(words[1..], list);
    }
  }

  /** When no word fits, the result is empty; in particular an empty list gives an empty result. */
  lemma {:induction false} GetConstructableWordsNone(words: seq<Word>, list: LetterCounts)
    requires forall i :: 0 <= i < |words| ==> !CanBeConstructed(words[i].letters, list)
    ensures GetConstructableWords(words, list) == []
  {
    if words != [] {
      GetConstructableWordsNone(words[1..], list);
    }
  }

  /** The concatenation of a sequence of chunks. */
  function Flatten<T>(chunks: seq<seq<T>>): (r: seq<T>)
  {
    if chunks == [] then [] else chunks[0] + Flatten(chunks[1..])
  }

  /**
   Splitting the input into any chunks, filtering each chunk on its own and
   joining the partial results in chunk order gives the sequential result:
   a parallel split with an order-preserving collect is equivalent.
   */
  lemma {:induction false} ChunkedEvaluation(chunks: seq<seq<Word>>, list: LetterCounts)
    ensures GetConstructableWords(Flatten(chunks), list) ==
              Flatten(seq(|chunks|, i requires 0 <= i < |chunks| => GetConstructableWords(chunks[i], list)))
  {
    var parts := seq(|chunks|, i requires 0 <= i < |chunks| => GetConstructableWords(chunks[i], list));
    if chunks != [] {
      GetConstructableWordsConcat(chunks[0], Flatten(chunks[1..]), list);
      ChunkedEvaluation(chunks[1..], list);
      assert parts[1..] == seq(|chunks[1..]|, i requires 0 <= i < |chunks[1..]| => GetConstructableWords(chunks[1..][i], list));
    }
  }

  // ---------------------------------------------------------------------
  // read_words_from_file (I/O results given as parameters)
  // ---------------------------------------------------------------------

  /** The `Word` that the ingestion loop builds from one line. */
  function WordOf(line: string): Word
  {
    Word(line, LettersCount(line))
  }

  /**
   The word built from a line keeps the line as its text, and counts exactly
   the lowercase letters of the lowered line, each by its occurrences.
   */
  lemma WordOfLetters(line: string, c: char)
    ensures WordOf(line).value == line
    ensures c in WordOf(line).letters <==> IsAsciiLowercase(c) && c in multiset(ToAsciiLowercase(line))
    ensures CountOf(WordOf(line).letters, c) == if IsAsciiLowercase(c) then multiset(ToAsciiLowercase(line))[c] else 0
  {
    LettersCountCountsOccurrences(line, c);
  }

  /**
   The loop of `read_words_from_file`. `file` is what `File::open` gave, and
   on success the results of `BufReader::lines`, one per line. An open error
   is returned as it is; otherwise the first line error stops the loop and is
   returned; otherwise every line becomes a `Word` of its verbatim text and
   its letter counts, in file order.
   */
  method ReadWordsFromFile(file: Result<seq<Result<string>>>) returns (r: Result<seq<Word>>)
    ensures file.Err? ==> r == Err(file.error)
    ensures file.Ok? && r.Ok? ==> forall i :: 0 <= i < |file.value| ==> file.value[i].Ok?
    ensures file.Ok? && r.Ok? ==>
              |r.value| == |file.value| &&
              forall i :: 0 <= i < |file.value| ==> r.value[i] == WordOf(file.value[i].value)
    ensures file.Ok? && r.Err? ==>
              exists k :: 0 <= k < |file.value| && file.value[k] == Err(r.error) &&
                forall j :: 0 <= j < k ==> file.value[j].Ok?
  {
    if file.Err? {
      return Err(file.error);
    }
    var lines := file.value;
    var words: seq<Word> := [];
    var i := 0;
    while i < |lines|
      invariant 0 <= i <= |lines|
      invariant forall j :: 0 <= j < i ==> lines[j].Ok?
      invariant |words| == i
      invariant forall j :: 0 <= j < i ==> words[j] == WordOf(lines[j].value)
    {
      if lines[i].Err? {
        return Err(lines[i].error);
      }
      var value := lines[i].value;
      var letters := GetLettersCount(value);
      words := words + [Word(value, letters)];
      i := i + 1;
    }
    return Ok(words);
  }
}
