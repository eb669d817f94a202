/** The random label generator: the 52-letter `charset`, the process-wide
    random source, and `randomString`. */
module Random {

  /** The alphabet labels are drawn from (Go constant `charset`). */
  const Charset: string := "abcdefghijklmnopqrstuvwxyzABCDEFGHIJKLMNOPQRSTUVWXYZ"

  /** A value `rand.Intn(len(charset))` can return. */
  type CharIndex = i: int | 0 <= i < |Charset|

  predicate IsAsciiLetter(c: char)
  {
    'a' <= c <= 'z' || 'A' <= c <= 'Z'
  }

  predicate IsLetters(s: string)
  {
    forall i :: 0 <= i < |s| ==> IsAsciiLetter(s[i])
  }

  /** Position `i` of `Charset` holds the `i`-th lower-case letter, then the upper-case ones. */
  lemma CharsetAt(i: nat)
    requires i < |Charset|
    ensures Charset[i] == if i < 26 then ('a' as int + i) as char else ('A' as int + i - 26) as char
  {
    var lower := seq(26, k requires 0 <= k < 26 => ('a' as int + k) as char);
    var upper := seq(26, k requires 0 <= k < 26 => ('A' as int + k) as char);
    assert lower == "abcdefghijklmnopqrstuvwxyz";
    assert upper == "ABCDEFGHIJKLMNOPQRSTUVWXYZ";
    assert Charset == lower + upper;
  }

  /** `Charset` is exactly the ASCII letters a-z and A-Z. */
  lemma CharsetIsAlphabet(c: char)
    ensures c in Charset <==> IsAsciiLetter(c)
  {
    if c in Charset {
      var i :| 0 <= i < |Charset| && Charset[i] == c;
      CharsetAt(i);
    }
    if 'a' <= c <= 'z' {
      CharsetAt(c as int - 'a' as int);
    } else if 'A' <= c <= 'Z' {
      CharsetAt(c as int - 'A' as int + 26);
    }
  }

  /** No letter appears twice in `Charset`: different indices give different letters. */
  lemma CharsetDistinct(i: nat, j: nat)
    requires i < |Charset| && j < |Charset| && Charset[i] == Charset[j]
    ensures i == j
  {
    CharsetAt(i);
    CharsetAt(j);
  }

  /** The string `randomString(n)` builds when the random source returns
      `stream(from)`, `stream(from + 1)`, ... for its `n` calls of `rand.Intn`. */
  function Spell(stream: nat -> CharIndex, from: nat, n: nat): (s: string)
    ensures |s| == n
    ensures forall i :: 0 <= i < n ==> s[i] == Charset[stream(from + i)]
  {
    if n == 0 then [] else Spell(stream, from, n - 1) + [Charset[stream(from + n - 1)]]
  }

  /** Every character of a generated string is an ASCII letter. */
  lemma SpellIsLetters(stream: nat -> CharIndex, from: nat, n: nat)
    ensures IsLetters(Spell(stream, from, n))
  {
    var s := Spell(stream, from, n);
    forall i | 0 <= i < |s|
      ensures IsAsciiLetter(s[i])
    {
      CharsetIsAlphabet(s[i]);
    }
  }

  /** The indices `n` successive calls of `rand.Intn` return, starting at `from`. */
  function Draws(stream: nat -> CharIndex, from: nat, n: nat): (d: seq<CharIndex>)
  {
    seq(n, i requires 0 <= i < n => stream(from + i))
  }

  /** A generated string determines the draws it was made from: two strings
      of the same length are equal exactly when their draws are. */
  lemma SpellDeterminesDraws(stream: nat -> CharIndex, from: nat, stream': nat -> CharIndex, from': nat, n: nat)
    ensures Spell(stream, from, n) == Spell(stream', from', n) <==> Draws(stream, from, n) == Draws(stream', from', n)
  {
    var s, s' := Spell(stream, from, n), Spell(stream', from', n);
    var d, d' := Draws(stream, from, n), Draws(stream', from', n);
    if s == s' {
      forall i | 0 <= i < n
        ensures d[i] == d'[i]
      {
        assert s[i] == s'[i];
        CharsetDistinct(d[i], d'[i]);
      }
    }
    if d == d' {
      forall i | 0 <= i < n
        ensures s[i] == s'[i]
      {
        assert d[i] == d'[i];
      }
    }
  }

  /** Consecutive calls consume consecutive stretches of the random source. */
  lemma SpellSplit(stream: nat -> CharIndex, from: nat, m: nat, n: nat)
    ensures Spell(stream, from, m + n) == Spell(stream, from, m) + Spell(stream, from + m, n)
  {
  }

  /** The process-wide pseudo-random source of package `math/rand`, reduced to
      what `randomString` asks of it: `stream(k)` is what the `k`-th call of
      `rand.Intn(len(charset))` returns, and `drawn` counts the calls made so far. */
  class Rand {
    const stream: nat -> CharIndex
    var drawn: nat

    constructor (stream: nat -> CharIndex)
      ensures this.stream == stream && drawn == 0
    {
      this.stream := stream;
      drawn := 0;
    }

    /** `rand.Intn(len(charset))`. */
    method Intn() returns (i: CharIndex)
      modifies this
      ensures i == stream(old(drawn))
      ensures drawn == old(drawn) + 1
    {
      i := stream(drawn);
      drawn := drawn + 1;
    }
  }

  /** Go `randomString(n)`: `n` bytes, each `charset[rand.Intn(len(charset))]`,
      appended one at a time. (`n` is a `nat`: the builder's `Grow` panics on a
      negative count.) */
  method RandomString(rnd: Rand, n: nat) returns (s: string)
    modifies rnd
    ensures rnd.drawn == old(rnd.drawn) + n
    ensures s == Spell(rnd.stream, old(rnd.drawn), n)
    ensures |s| == n && IsLetters(s)
  {
    s := [];
    for i := 0 to n
      invariant rnd.drawn == old(rnd.drawn) + i
      invariant s == Spell(rnd.stream, old(rnd.drawn), i)
    {
      var k := rnd.Intn();
      s := s + [Charset[k]];
    }
    SpellIsLetters(rnd.stream, old(rnd.drawn), n);
  }
}
