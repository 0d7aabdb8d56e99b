/** `WordValidator`: which raw words may be counted, and their lower-case trimmed form. */
module Validation {
  import opened Wrappers
  import opened JavaStrings
  import opened Exceptions

  const NullOrEmptyMessage: string := "Word cannot be null or empty"
  const NonAlphabeticPrefix: string := "Word contains non-alphabetic characters: "

  /** A full match of `^[a-zA-Z]+$`. */
  predicate MatchesAlphabeticPattern(s: string) {
    |s| > 0 && forall i :: 0 <= i < |s| ==> IsAsciiLetter(s[i])
  }

  /**
   * `validateWord`: a word passes exactly when it is non-null and its trimmed
   * form is a non-empty run of ASCII letters. A null or blank word is
   * reported with the word exactly as given; any other rejected word with its
   * trimmed form.
   */
  function ValidateWord(word: Option<string>): (r: Outcome<InvalidWordException>)
    ensures r.Pass? <==>
      word.Some? && !IsBlank(word.value) &&
      forall i :: 0 <= i < |Trim(word.value)| ==> IsAsciiLetter(Trim(word.value)[i])
    ensures word.None? ==> r == Fail(InvalidWordException(NullOrEmptyMessage, None))
    ensures word.Some? && IsBlank(word.value) ==>
      r == Fail(InvalidWordException(NullOrEmptyMessage, word))
    ensures word.Some? && !IsBlank(word.value) && r.Fail? ==>
      r.error.invalidWord == Some(Trim(word.value)) &&
      r.error.message == NonAlphabeticPrefix + Trim(word.value) &&
      exists i :: 0 <= i < |Trim(word.value)| && !IsAsciiLetter(Trim(word.value)[i])
  {
    if word.None? || Trim(word.value) == [] then
      Fail(InvalidWordException(NullOrEmptyMessage, word))
    else
      var trimmedWord := Trim(word.value);
      if !MatchesAlphabeticPattern(trimmedWord) then
        Fail(InvalidWordException(NonAlphabeticPrefix + trimmedWord, Some(trimmedWord)))
      else
        Pass
  }

  /**
   * `normalizeWord`: null stays null; otherwise the result has no upper-case
   * ASCII letter and nothing to trim, is empty exactly for a blank word, and
   * is never longer than the word.
   */
  function NormalizeWord(word: Option<string>): (r: Option<string>)
    ensures r.Some? <==> word.Some?
    ensures word.Some? ==>
      && HasNoUpperCase(r.value)
      && HasNoTrimmableEnds(r.value)
      && (r.value == [] <==> IsBlank(word.value))
      && |r.value| <= |word.value|
  {
    match word
    case None => None
    case Some(w) =>
      var t := Trim(w);
      LowerCaseKeepsTrimmedEnds(t);
      LowerCaseHasNoUpperCase(t);
      Some(ToLowerCase(t))
  }

  /** Normalizing twice is the same as normalizing once. */
  lemma NormalizeIdempotent(word: Option<string>)
    ensures NormalizeWord(NormalizeWord(word)) == NormalizeWord(word)
  {
    if word.Some? {
      var n := NormalizeWord(word).value;
      TrimOfTrimmed(n);
      LowerCaseOfLower(n);
    }
  }

  /** The normalized form of a word that passes validation is a non-empty run of `a`-`z`. */
  lemma ValidWordNormalizesToLowerLetters(word: Option<string>)
    requires ValidateWord(word).Pass?
    ensures NormalizeWord(word).Some?
    ensures |NormalizeWord(word).value| > 0
    ensures forall i :: 0 <= i < |NormalizeWord(word).value| ==> IsAsciiLower(NormalizeWord(word).value[i])
    ensures !IsBlank(NormalizeWord(word).value)
  {
    var t := Trim(word.value);
    assert forall i :: 0 <= i < |t| ==> ToLowerCase(t)[i] == LowerChar(t[i]);
    assert !IsTrimmable(NormalizeWord(word).value[0]);
  }

  /**
   * The translator keys its tables by `toLowerCase().trim()`; on a normalized
   * word that is the word itself, so the counter and the translator agree on keys.
   */
  lemma TranslatorKeyOfNormalized(word: Option<string>)
    requires word.Some?
    ensures Trim(ToLowerCase(NormalizeWord(word).value)) == NormalizeWord(word).value
  {
    var n := NormalizeWord(word).value;
    LowerCaseOfLower(n);
    TrimOfTrimmed(n);
  }

  /** A leading blank is trimmed away before the pattern is matched. */
  lemma LeadingSpaceAccepted()
    ensures ValidateWord(Some(" hello")).Pass?
  {
    hide IsTrimmedSlice;
    var w := " hello";
    assert TrimStart(w[1..]) == w[1..];
    assert TrimEnd(w[1..]) == w[1..];
    assert Trim(w) == "hello";
  }

  /** Trailing blanks, with or without leading ones, are trimmed away too. */
  lemma TrailingSpaceAccepted()
    ensures ValidateWord(Some("hello ")).Pass?
    ensures ValidateWord(Some(" hello ")).Pass?
  {
    hide IsTrimmedSlice, ValidateWord;
    var w := "hello ";
    assert TrimStart(w) == w;
    assert TrimEnd(w[..5]) == w[..5];
    HelloAccepted(w);
    var u := " hello ";
    assert TrimStart(u[1..]) == u[1..];
    assert TrimStart(u) == w;
    HelloAccepted(u);
  }

  /** A word that trims to "hello" passes validation. */
  lemma HelloAccepted(w: string)
    requires Trim(w) == "hello"
    ensures ValidateWord(Some(w)).Pass?
  {
    hide IsTrimmedSlice;
  }

  /** "valid" passes validation. */
  lemma ValidIsAccepted()
    ensures ValidateWord(Some("valid")).Pass?
  {
    hide ValidateWord, Trim, TrimStart, TrimEnd, IsBlank;
    TrimOfTrimmed("valid");
    forall i | 0 <= i < |"valid"|
      ensures IsAsciiLetter("valid"[i])
    {
    }
  }

  /** "invalid123" is rejected with its digits reported. */
  lemma DigitsAreRejected()
    ensures ValidateWord(Some("invalid123")) ==
            Fail(InvalidWordException(NonAlphabeticPrefix + "invalid123", Some("invalid123")))
  {
    hide ValidateWord, Trim, TrimStart, TrimEnd, IsBlank;
    TrimOfTrimmed("invalid123");
    assert !IsAsciiLetter("invalid123"[7]);
  }
}
