/**
 * Character-level text handling of the round engine: the flavor-text
 * sanitizer, and the lowercasing and trimming applied to the player's answer
 * before it is compared with the species name.
 */
module Text {

  const Newline: char := '\n'
  const FormFeed: char := '\U{000C}'
  const Space: char := ' '

  /** `s` with every occurrence of `from` replaced by `to`, scanning left to right. */
  function ReplaceChar(s: string, from: char, to: char): (r: string)
    ensures |r| == |s|
    ensures forall i :: 0 <= i < |s| ==> r[i] == (if s[i] == from then to else s[i])
  {
    if s == [] then []
    else [if s[0] == from then to else s[0]] + ReplaceChar(s[1..], from, to)
  }

  /** True of the two characters the sanitizer rewrites. */
  predicate IsLineBreak(c: char) {
    c == Newline || c == FormFeed
  }

  /**
   * The sanitizer: first every newline, then every form feed, is replaced
   * by one space. Nothing else changes, the length included.
   */
  function Sanitize(text: string): (r: string)
    ensures |r| == |text|
    ensures forall i :: 0 <= i < |text| ==> r[i] == (if IsLineBreak(text[i]) then Space else text[i])
    ensures forall i :: 0 <= i < |r| ==> !IsLineBreak(r[i])
  {
    ReplaceChar(ReplaceChar(text, Newline, Space), FormFeed, Space)
  }

  /** Sanitized text holds no newline and no form feed. */
  predicate IsSanitized(s: string) {
    forall i :: 0 <= i < |s| ==> !IsLineBreak(s[i])
  }

  /** Text without line breaks is a fixed point of the sanitizer. */
  lemma {:induction false} SanitizeFixesSanitized(s: string)
    requires IsSanitized(s)
    ensures Sanitize(s) == s
  {
    var r := Sanitize(s);
    assert |r| == |s|;
    forall i | 0 <= i < |s|
      ensures r[i] == s[i]
    {
      assert !IsLineBreak(s[i]);
    }
  }

  /** Sanitizing twice is sanitizing once. */
  lemma SanitizeIdempotent(s: string)
    ensures Sanitize(Sanitize(s)) == Sanitize(s)
  {
    SanitizeFixesSanitized(Sanitize(s));
  }

  /** A string is its own sanitization exactly when it holds no line break. */
  lemma SanitizeFixedPoints(s: string)
    ensures Sanitize(s) == s <==> IsSanitized(s)
  {
    if IsSanitized(s) {
      SanitizeFixesSanitized(s);
    }
  }

  /** An ASCII capital letter. */
  predicate IsAsciiUpper(c: char) {
    'A' <= c <= 'Z'
  }

  /** Lowercase of one character, ASCII letters only. */
  function LowerChar(c: char): (r: char)
    ensures !IsAsciiUpper(r)
    ensures IsAsciiUpper(c) ==> r as int == c as int + 32
    ensures !IsAsciiUpper(c) ==> r == c
  {
    if IsAsciiUpper(c) then (c as int + 32) as char else c
  }

  /** The lowercasing of the player's input (ASCII letters only, see README). */
  function ToLowercase(s: string): (r: string)
    ensures |r| == |s|
    ensures forall i {:trigger r[i]} :: 0 <= i < |s| ==> r[i] == s[i] || (IsAsciiUpper(s[i]) && r[i] as int == s[i] as int + 32)
    ensures forall i :: 0 <= i < |r| ==> !IsAsciiUpper(r[i])
  {
    seq(|s|, i requires 0 <= i < |s| => LowerChar(s[i]))
  }

  /** A string with no ASCII capital letter. */
  predicate HasNoAsciiUpper(s: string) {
    forall i :: 0 <= i < |s| ==> !IsAsciiUpper(s[i])
  }

  /** Lowercasing leaves a string without capitals unchanged. */
  lemma {:induction false} LowercaseFixesLower(s: string)
    requires HasNoAsciiUpper(s)
    ensures ToLowercase(s) == s
  {
    var r := ToLowercase(s);
    forall i | 0 <= i < |s|
      ensures r[i] == s[i]
    {
      assert !IsAsciiUpper(s[i]);
    }
  }

  /** Lowercasing twice is lowercasing once. */
  lemma LowercaseIdempotent(s: string)
    ensures ToLowercase(ToLowercase(s)) == ToLowercase(s)
  {
    LowercaseFixesLower(ToLowercase(s));
  }

  /**
   * The Unicode White_Space property, which is what Rust's
   * `char::is_whitespace` (and so `str::trim`) tests.
   */
  predicate IsWhitespace(c: char) {
    || ('\U{0009}' <= c <= '\U{000D}')
    || c == '\U{0020}'
    || c == '\U{0085}'
    || c == '\U{00A0}'
    || c == '\U{1680}'
    || ('\U{2000}' <= c <= '\U{200A}')
    || c == '\U{2028}'
    || c == '\U{2029}'
    || c == '\U{202F}'
    || c == '\U{205F}'
    || c == '\U{3000}'
  }

  /** Number of leading whitespace characters of `s`. */
  function LeadingWhitespace(s: string): (n: nat)
    ensures n <= |s|
    ensures forall i :: 0 <= i < n ==> IsWhitespace(s[i])
    ensures n < |s| ==> !IsWhitespace(s[n])
  {
    if s == [] || !IsWhitespace(s[0]) then 0 else 1 + LeadingWhitespace(s[1..])
  }

  /** Number of trailing whitespace characters of `s`. */
  function TrailingWhitespace(s: string): (n: nat)
    ensures n <= |s|
    ensures forall i :: |s| - n <= i < |s| ==> IsWhitespace(s[i])
    ensures n < |s| ==> !IsWhitespace(s[|s| - n - 1])
  {
    if s == [] || !IsWhitespace(s[|s| - 1]) then 0 else 1 + TrailingWhitespace(s[..|s| - 1])
  }

  /** True when `s` neither starts nor ends with whitespace. */
  predicate IsTrimmed(s: string) {
    |s| > 0 ==> !IsWhitespace(s[0]) && !IsWhitespace(s[|s| - 1])
  }

  /**
   * `s` without its leading and trailing whitespace (Rust's `str::trim`):
   * a contiguous slice of `s`, everything cut away is whitespace, and the
   * slice neither starts nor ends with whitespace.
   */
  function Trim(s: string): (r: string)
    ensures IsTrimmed(r)
    ensures exists lo, hi ::
              && 0 <= lo <= hi <= |s|
              && r == s[lo..hi]
              && (forall i :: 0 <= i < lo ==> IsWhitespace(s[i]))
              && (forall i :: hi <= i < |s| ==> IsWhitespace(s[i]))
  {
    var t := s[LeadingWhitespace(s)..];
    var r := t[..|t| - TrailingWhitespace(t)];
    assert r == s[LeadingWhitespace(s)..|s| - TrailingWhitespace(t)];
    r
  }

  /** Trimming leaves a trimmed string unchanged. */
  lemma TrimFixesTrimmed(s: string)
    requires IsTrimmed(s)
    ensures Trim(s) == s
  {
    assert LeadingWhitespace(s) == 0;
    assert s[0..] == s;
  }

  /** Trimming is idempotent. */
  lemma TrimIdempotent(s: string)
    ensures Trim(Trim(s)) == Trim(s)
  {
    TrimFixesTrimmed(Trim(s));
  }

  /**
   * The round's answer check: the player's line, lowercased and then trimmed,
   * must equal the species name exactly. The name itself is not normalised.
   */
  predicate IsCorrectGuess(input: string, name: string)
    ensures IsCorrectGuess(input, name) ==> HasNoAsciiUpper(name) && IsTrimmed(name) && |name| <= |input|
  {
    TrimKeepsLowercase(ToLowercase(input));
    Trim(ToLowercase(input)) == name
  }

  /** Trimming a string without capitals leaves a shorter one without capitals. */
  lemma TrimKeepsLowercase(s: string)
    requires HasNoAsciiUpper(s)
    ensures HasNoAsciiUpper(Trim(s)) && |Trim(s)| <= |s|
  {
    var r := Trim(s);
    var lo, hi :| 0 <= lo <= hi <= |s| && r == s[lo..hi];
    assert HasNoAsciiUpper(r) by {
      forall k | 0 <= k < |r|
        ensures !IsAsciiUpper(r[k])
      {
        assert r[k] == s[lo + k];
      }
    }
  }

  /** Every character of `s` is whitespace. */
  predicate IsBlank(s: string) {
    forall i :: 0 <= i < |s| ==> IsWhitespace(s[i])
  }

  /** Whitespace in front of a non-whitespace character is exactly the leading run. */
  lemma {:induction false} LeadingOfPadded(pre: string, rest: string)
    requires IsBlank(pre)
    requires rest == [] || !IsWhitespace(rest[0])
    ensures LeadingWhitespace(pre + rest) == |pre|
  {
    if pre != [] {
      assert (pre + rest)[1..] == pre[1..] + rest;
      LeadingOfPadded(pre[1..], rest);
    } else {
      assert pre + rest == rest;
    }
  }

  /** Whitespace behind a non-whitespace character is exactly the trailing run. */
  lemma {:induction false} TrailingOfPadded(rest: string, post: string)
    requires IsBlank(post)
    requires rest == [] || !IsWhitespace(rest[|rest| - 1])
    ensures TrailingWhitespace(rest + post) == |post|
  {
    if post != [] {
      assert (rest + post)[..|rest + post| - 1] == rest + post[..|post| - 1];
      TrailingOfPadded(rest, post[..|post| - 1]);
    } else {
      assert rest + post == rest;
    }
  }

  /** Trimming removes exactly the whitespace padding around a trimmed string. */
  lemma TrimRemovesPadding(pre: string, m: string, post: string)
    requires IsBlank(pre) && IsBlank(post) && IsTrimmed(m)
    ensures Trim(pre + m + post) == m
  {
    var s := pre + m + post;
    if m == [] {
      assert s == pre + post;
      LeadingOfPadded(pre + post, []);
      assert (pre + post) + [] == pre + post;
      assert s[LeadingWhitespace(s)..] == [];
    } else {
      assert s == pre + (m + post);
      LeadingOfPadded(pre, m + post);
      var t := s[|pre|..];
      assert t == m + post;
      TrailingOfPadded(m, post);
      assert t[..|t| - |post|] == m;
    }
  }

  /** Lowercasing works character by character, so it distributes over concatenation. */
  lemma LowercaseDistributes(a: string, b: string)
    ensures ToLowercase(a + b) == ToLowercase(a) + ToLowercase(b)
  {
    var l := ToLowercase(a + b);
    var r := ToLowercase(a) + ToLowercase(b);
    assert |l| == |r|;
    forall i | 0 <= i < |l|
      ensures l[i] == r[i]
    {
      if i < |a| {
        assert (a + b)[i] == a[i];
      } else {
        assert (a + b)[i] == b[i - |a|];
      }
    }
  }

  /**
   * The answer check ignores case and surrounding whitespace of the input:
   * any capitalisation of the name, padded with whitespace on either side
   * (the newline `read_line` keeps, say), is accepted.
   */
  lemma {:induction false} GuessIgnoresCaseAndPadding(pre: string, word: string, post: string, name: string)
    requires IsBlank(pre) && IsBlank(post)
    requires ToLowercase(word) == name && IsTrimmed(name)
    ensures IsCorrectGuess(pre + word + post, name)
  {
    LowercaseDistributes(pre + word, post);
    LowercaseDistributes(pre, word);
    BlankIsLower(pre);
    BlankIsLower(post);
    TrimRemovesPadding(pre, name, post);
  }

  /** A line the player typed: a word whose lowercase is the name, then the newline `read_line` keeps. */
  lemma LineOfWord(word: string, name: string)
    requires ToLowercase(word) == name && IsTrimmed(name)
    ensures IsCorrectGuess(word + "\n", name)
  {
    assert word + "\n" == "" + word + "\n";
    GuessIgnoresCaseAndPadding("", word, "\n", name);
  }

  /** Lowercasing leaves whitespace alone. */
  lemma BlankIsLower(s: string)
    requires IsBlank(s)
    ensures ToLowercase(s) == s
  {
    forall i | 0 <= i < |s|
      ensures !IsAsciiUpper(s[i])
    {
      assert IsWhitespace(s[i]);
    }
    LowercaseFixesLower(s);
  }

  /**
   * Only the input is normalised: a species name holding an ASCII capital
   * letter, or starting or ending with whitespace, is never guessed.
   */
  lemma UnnormalisedNameNeverMatches(input: string, name: string)
    requires !HasNoAsciiUpper(name) || !IsTrimmed(name)
    ensures !IsCorrectGuess(input, name)
  {
  }


  /** A shouted answer with a space on either side, " PIKACHU " and its newline, is a correct guess for "pikachu". */
  lemma ShoutedPaddedGuessMatches()
    ensures IsCorrectGuess(" PIKACHU \n", "pikachu")
  {
    assert " PIKACHU \n" == " " + "PIKACHU" + " \n";
    assert ToLowercase("PIKACHU") == "pikachu";
    GuessIgnoresCaseAndPadding(" ", "PIKACHU", " \n", "pikachu");
  }
}
