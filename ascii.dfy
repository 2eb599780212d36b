/**
 The ASCII character helpers of Rust's standard library that the letter
 counter relies on: `char::is_ascii_alphabetic`, `char::to_ascii_lowercase`
 and `str::to_ascii_lowercase`, together with the `filter` step that keeps
 only the ASCII letters of a string.
 */
module Ascii {

  /** `char::is_ascii_alphabetic`: one of 'A'..'Z' or 'a'..'z'. */
  predicate IsAsciiAlphabetic(c: char) {
    'A' <= c <= 'Z' || 'a' <= c <= 'z'
  }

  predicate IsAsciiLowercase(c: char) {
    'a' <= c <= 'z'
  }

  /** `char::to_ascii_lowercase`: 'A'..'Z' move to 'a'..'z', every other character is kept. */
  function ToLower(c: char): (r: char)
    ensures IsAsciiAlphabetic(c) <==> IsAsciiLowercase(r)
    ensures IsAsciiAlphabetic(r) ==> IsAsciiLowercase(r)
    ensures !('A' <= c <= 'Z') ==> r == c
    ensures 'A' <= c <= 'Z' ==> r as int == c as int + ('a' as int - 'A' as int)
  {
    if 'A' <= c <= 'Z' then (c as int - 'A' as int + 'a' as int) as char else c
  }

  /** `str::to_ascii_lowercase`: the string with every character lowered on its own. */
  function ToAsciiLowercase(s: string): (r: string)
    ensures |r| == |s|
  {
    seq(|s|, i requires 0 <= i < |s| => ToLower(s[i]))
  }

  /** `.filter(|c| c.is_ascii_alphabetic())`: the ASCII letters of `s`, in order. */
  function FilterAlphabetic(s: string): (r: string)
    ensures |r| <= |s|
  {
    if s == [] then []
    else (if IsAsciiAlphabetic(s[0]) then [s[0]] else []) + FilterAlphabetic(s[1..])
  }

  /** The filter only keeps characters of `s`, and only ASCII letters. */
  lemma {:induction false} FilterAlphabeticMembers(s: string)
    ensures forall c :: c in FilterAlphabetic(s) ==> c in s && IsAsciiAlphabetic(c)
  {
    if s != [] {
      FilterAlphabeticMembers(s[1..]);
    }
  }

  /** Lowering is idempotent, so lowering an already lowered string changes nothing. */
  lemma ToAsciiLowercaseIdempotent(s: string)
    ensures ToAsciiLowercase(ToAsciiLowercase(s)) == ToAsciiLowercase(s)
  {
  }

  lemma ToAsciiLowercaseConcat(a: string, b: string)
    ensures ToAsciiLowercase(a + b) == ToAsciiLowercase(a) + ToAsciiLowercase(b)
  {
  }

  /** A lowercase-only string is its own lowered form. */
  lemma ToAsciiLowercaseOfLowercase(s: string)
    requires forall i :: 0 <= i < |s| ==> IsAsciiLowercase(s[i])
    ensures ToAsciiLowercase(s) == s
  {
  }

  /** Filtering distributes over concatenation: it works character by character and keeps order. */
  lemma {:induction false} FilterAlphabeticConcat(a: string, b: string)
    ensures FilterAlphabetic(a + b) == FilterAlphabetic(a) + FilterAlphabetic(b)
  {
    if a == [] {
      assert a + b == b;
    } else {
      var ab := a + b;
      var head := if IsAsciiAlphabetic(a[0]) then [a[0]] else [];
      assert ab[0] == a[0];
      assert ab[1..] == a[1..] + b;
      FilterAlphabeticConcat(a[1..], b);
      calc {
        FilterAlphabetic(ab);
        head + FilterAlphabetic(a[1..] + b);
        head + (FilterAlphabetic(a[1..]) + FilterAlphabetic(b));
        (head + FilterAlphabetic(a[1..])) + FilterAlphabetic(b);
        FilterAlphabetic(a) + FilterAlphabetic(b);
      }
    }
  }

  /** A string without ASCII letters filters to the empty string. */
  lemma {:induction false} FilterAlphabeticOfNoise(s: string)
    requires forall i :: 0 <= i < |s| ==> !IsAsciiAlphabetic(s[i])
    ensures FilterAlphabetic(s) == []
  {
    if s != [] {
      FilterAlphabeticOfNoise(s[1..]);
    }
  }

  /** Conversely, an empty filter result means `s` holds no ASCII letter. */
  lemma {:induction false} FilterAlphabeticEmpty(s: string)
    requires FilterAlphabetic(s) == []
    ensures forall i :: 0 <= i < |s| ==> !IsAsciiAlphabetic(s[i])
  {
    if s != [] {
      FilterAlphabeticEmpty(s[1..]);
      assert forall i :: 1 <= i < |s| ==> s[i] == s[1..][i - 1];
    }
  }

  /** A string made only of ASCII letters is left as it is by the filter. */
  lemma {:induction false} FilterAlphabeticOfLetters(s: string)
    requires forall i :: 0 <= i < |s| ==> IsAsciiAlphabetic(s[i])
    ensures FilterAlphabetic(s) == s
  {
    if s != [] {
      FilterAlphabeticOfLetters(s[1..]);
    }
  }

  /** Lowering and filtering commute: lowering never turns a letter into a non-letter or back. */
  lemma {:induction false} FilterAlphabeticOfLowercase(s: string)
    ensures FilterAlphabetic(ToAsciiLowercase(s)) == ToAsciiLowercase(FilterAlphabetic(s))
  {
    if s != [] {
      ToAsciiLowercaseConcat([s[0]], s[1..]);
      assert s == [s[0]] + s[1..];
      FilterAlphabeticConcat(ToAsciiLowercase([s[0]]), ToAsciiLowercase(s[1..]));
      FilterAlphabeticOfLowercase(s[1..]);
      FilterAlphabeticConcat([s[0]], s[1..]);
      ToAsciiLowercaseConcat(FilterAlphabetic([s[0]]), FilterAlphabetic(s[1..]));
    }
  }

  /** The filter keeps every occurrence of an ASCII letter: the multiset of letters is unchanged. */
  lemma {:induction false} FilterAlphabeticKeepsLetters(s: string, c: char)
    requires IsAsciiAlphabetic(c)
    ensures multiset(FilterAlphabetic(s))[c] == multiset(s)[c]
  {
    if s != [] {
      assert s == [s[0]] + s[1..];
      FilterAlphabeticKeepsLetters(s[1..], c);
    }
  }
}
