/**
 The letter counter as the Rust code writes it: each count is a `u8`, and
 `*count += 1` on a count of 255 wraps to 0 in a release build (a debug
 build panics instead). Counting with unbounded naturals, as `FindWords`
 does, is the corrected behaviour; this module shows that the two agree
 while every letter occurs fewer than 256 times, and exhibits the inputs
 on which the wrapped counts give wrong answers.
 */
module Overflow {
  import opened Ascii
  import opened FindWords

  /** The `u8` fold step of a release build: the increment wraps modulo 256. */
  function BumpU8(m: LetterCounts, c: char): LetterCounts {
    m[c := (CountOf(m, c) + 1) % 256]
  }

  /** The fold of `BumpU8`, in the same order as `Tally`. */
  function TallyU8(t: string): LetterCounts {
    if t == [] then map[] else BumpU8(TallyU8(t[..|t| - 1]), t[|t| - 1])
  }

  /** `get_letters_count` with `u8` counts, as written. */
  function LettersCountU8(s: string): LetterCounts {
    TallyU8(Letters(s))
  }

  /** Wrapping after each increment is wrapping once at the end. */
  lemma WrapStep(k: nat)
    ensures (k % 256 + 1) % 256 == (k + 1) % 256
  {
    var q, r := k / 256, k % 256;
    assert k == 256 * q + r;
    if r < 255 {
      assert k + 1 == 256 * q + (r + 1);
    } else {
      assert k + 1 == 256 * (q + 1);
    }
  }

  /** Wrapped counting keeps the same keys, and each count is the true count modulo 256. */
  lemma {:induction false} TallyU8Wraps(t: string)
    ensures forall c :: c in TallyU8(t) <==> c in multiset(t)
    ensures forall c :: CountOf(TallyU8(t), c) == multiset(t)[c] % 256
  {
    if t != [] {
      var p, c := t[..|t| - 1], t[|t| - 1];
      assert t == p + [c];
      TallyU8Wraps(p);
      assert TallyU8(t) == BumpU8(TallyU8(p), c);
      assert multiset(t) == multiset(p) + multiset{c};
      forall d
        ensures d in TallyU8(t) <==> d in multiset(t)
        ensures CountOf(TallyU8(t), d) == multiset(t)[d] % 256
      {
        if d == c {
          WrapStep(multiset(p)[c]);
        } else {
          assert multiset(t)[d] == multiset(p)[d];
        }
      }
    }
  }

  /** While no letter occurs 256 times, the `u8` counter and the exact counter agree. */
  lemma TallyU8Agrees(t: string)
    requires forall c :: multiset(t)[c] < 256
    ensures TallyU8(t) == Tally(t)
  {
    var wrapped, exact := TallyU8(t), Tally(t);
    TallyU8Wraps(t);
    TallyIsMultiset(t);
    assert wrapped.Keys == exact.Keys;
    forall c | c in exact
      ensures wrapped[c] == exact[c]
    {
      var n := multiset(t)[c];
      assert n < 256 && n % 256 == n;
      assert CountOf(wrapped, c) == n % 256;
      assert CountOf(exact, c) == n;
    }
  }

  lemma LettersCountU8Agrees(s: string)
    requires forall c :: multiset(Letters(s))[c] < 256
    ensures LettersCountU8(s) == LettersCount(s)
  {
    TallyU8Agrees(Letters(s));
  }

  /** `n` copies of the letter 'a'. */
  function As(n: nat): string
  {
    seq(n, _ => 'a')
  }

  lemma {:induction false} AsCount(n: nat)
    ensures multiset(As(n))['a'] == n
    ensures forall c :: c in As(n) ==> c == 'a'
  {
    if n > 0 {
      assert As(n) == As(n - 1) + ['a'];
      AsCount(n - 1);
    }
  }

  lemma LettersOfAs(n: nat)
    ensures Letters(As(n)) == As(n)
  {
    ToAsciiLowercaseOfLowercase(As(n));
    FilterAlphabeticOfLetters(As(n));
  }

  lemma LettersOfA()
    ensures Letters("a") == "a"
  {
    ToAsciiLowercaseOfLowercase("a");
    FilterAlphabeticOfLetters("a");
  }

  /** In a run of one letter, that letter occurs as often as the run is long. */
  lemma {:induction false} RunLength(t: string, c: char)
    requires forall d :: d in t ==> d == c
    ensures multiset(t)[c] == |t|
  {
    if t != [] {
      assert t == [t[0]] + t[1..];
      assert t[0] in t;
      forall d | d in t[1..] ensures d == c {
        assert d in t;
      }
      RunLength(t[1..], c);
    }
  }

  /** A non-empty run of one letter counts to its length, exactly and modulo 256. */
  lemma OneLetterCounts(t: string, c: char)
    requires t != [] && forall d :: d in t ==> d == c
    ensures multiset(t)[c] == |t|
    ensures Tally(t) == map[c := |t|]
    ensures TallyU8(t) == map[c := |t| % 256]
  {
    RunLength(t, c);
    TallyIsMultiset(t);
    TallyU8Wraps(t);
    assert t[0] in t;
    assert CountOf(Tally(t), c) == multiset(t)[c];
    assert CountOf(TallyU8(t), c) == multiset(t)[c] % 256;
    assert Tally(t).Keys == {c} by {
      forall d | d in Tally(t) ensures d == c {
        assert d in multiset(t);
        assert d in t;
      }
    }
    assert TallyU8(t).Keys == {c} by {
      forall d | d in TallyU8(t) ensures d == c {
        assert d in multiset(t);
        assert d in t;
      }
    }
  }

  /** 256 copies of 'a' count to 256 exactly, but to a key 'a' with count 0 in `u8`. */
  lemma ManyAsCounts()
    ensures LettersCount(As(256)) == map['a' := 256]
    ensures LettersCountU8(As(256)) == map['a' := 0]
  {
    LettersOfAs(256);
    AsCount(256);
    OneLetterCounts(As(256), 'a');
  }

  lemma OneACounts()
    ensures LettersCount("a") == map['a' := 1]
    ensures LettersCountU8("a") == map['a' := 1]
  {
    LettersOfA();
    assert "a"[..0] == "";
  }

  /**
   A pool of 256 'a's holds the word "a", but its wrapped count of 0 says
   it does not.
   */
  lemma WrappedPoolRejectsA()
    ensures CanBeConstructed(LettersCount("a"), LettersCount(As(256)))
    ensures !CanBeConstructed(LettersCountU8("a"), LettersCountU8(As(256)))
  {
    ManyAsCounts();
    OneACounts();
  }

  /**
   A word of 256 'a's cannot be built from the pool "a", but its wrapped
   count of 0 says it can.
   */
  lemma WrappedWordFitsA()
    ensures !CanBeConstructed(LettersCount(As(256)), LettersCount("a"))
    ensures CanBeConstructed(LettersCountU8(As(256)), LettersCountU8("a"))
  {
    ManyAsCounts();
    OneACounts();
  }
}
