/**
 * The two `java.lang.String` operations the word counter is built on:
 * `trim()`, which drops every leading and trailing char whose code is at most
 * U+0020, and `toLowerCase()`, restricted here to the ASCII letters.
 */
module JavaStrings {

  /** A char that `String.trim` removes from either end of a string. */
  predicate IsTrimmable(c: char) {
    c <= ' '
  }

  predicate IsAsciiUpper(c: char) {
    'A' <= c <= 'Z'
  }

  predicate IsAsciiLower(c: char) {
    'a' <= c <= 'z'
  }

  /** The character class `[a-zA-Z]`. */
  predicate IsAsciiLetter(c: char) {
    IsAsciiLower(c) || IsAsciiUpper(c)
  }

  /** A string made of trimmable chars only (so `s.trim().isEmpty()` in Java). */
  predicate IsBlank(s: string) {
    forall i :: 0 <= i < |s| ==> IsTrimmable(s[i])
  }

  /** Neither end of `s` is a char that `trim` would remove. */
  predicate HasNoTrimmableEnds(s: string) {
    s == [] || (!IsTrimmable(s[0]) && !IsTrimmable(s[|s| - 1]))
  }

  predicate HasNoUpperCase(s: string) {
    forall i :: 0 <= i < |s| ==> !IsAsciiUpper(s[i])
  }

  /** Drops the leading trimmable chars: the longest suffix that does not start with one. */
  function TrimStart(s: string): (r: string)
    ensures |r| <= |s| && r == s[|s| - |r|..]
    ensures r == [] || !IsTrimmable(r[0])
    ensures forall i :: 0 <= i < |s| - |r| ==> IsTrimmable(s[i])
  {
    if s != [] && IsTrimmable(s[0]) then TrimStart(s[1..]) else s
  }

  /** Drops the trailing trimmable chars: the longest prefix that does not end with one. */
  function TrimEnd(s: string): (r: string)
    ensures |r| <= |s| && r == s[..|r|]
    ensures r == [] || !IsTrimmable(r[|r| - 1])
    ensures forall i :: |r| <= i < |s| ==> IsTrimmable(s[i])
  {
    if s != [] && IsTrimmable(s[|s| - 1]) then TrimEnd(s[..|s| - 1]) else s
  }

  /** `r` is `s` with `a` leading and some trailing chars dropped, each of them trimmable. */
  predicate IsTrimmedSlice(s: string, a: nat, r: string) {
    && a + |r| <= |s| && r == s[a..a + |r|]
    && (forall i :: 0 <= i < a ==> IsTrimmable(s[i]))
    && (forall i :: a + |r| <= i < |s| ==> IsTrimmable(s[i]))
  }

  /**
   * `String.trim()`: the result has no trimmable char at either end, is empty
   * exactly when the input is blank, and it is never longer than the input.
   */
  function Trim(s: string): (r: string)
    ensures HasNoTrimmableEnds(r)
    ensures r == [] <==> IsBlank(s)
    ensures |r| <= |s|
    ensures exists a :: IsTrimmedSlice(s, a, r)
  {
    TrimmedSliceOf(s);
    TrimEnd(TrimStart(s))
  }

  /** `TrimEnd(TrimStart(s))` drops only trimmable chars from the two ends of `s`. */
  lemma TrimmedSliceOf(s: string)
    ensures IsTrimmedSlice(s, |s| - |TrimStart(s)|, TrimEnd(TrimStart(s)))
  {
    hide TrimStart, TrimEnd;
    var t := TrimStart(s);
    var r := TrimEnd(t);
    var a := |s| - |t|;
    assert r == s[a..a + |r|];
    forall i | a + |r| <= i < |s|
      ensures IsTrimmable(s[i])
    {
      assert s[i] == t[i - a];
    }
  }

  /** Trimming keeps a slice of the input, so it brings in no upper-case letter. */
  lemma TrimKeepsNoUpperCase(s: string)
    requires HasNoUpperCase(s)
    ensures HasNoUpperCase(Trim(s))
  {
    var t := TrimStart(s);
    forall i | 0 <= i < |t|
      ensures !IsAsciiUpper(t[i])
    {
      assert t[i] == s[|s| - |t| + i];
    }
    var u := TrimEnd(t);
    forall i | 0 <= i < |u|
      ensures !IsAsciiUpper(u[i])
    {
      assert u[i] == t[i];
    }
  }

  /** The ASCII part of `Character.toLowerCase`. */
  function LowerChar(c: char): (d: char)
    ensures !IsAsciiUpper(d)
    ensures IsAsciiLetter(c) <==> IsAsciiLower(d)
    ensures IsTrimmable(c) <==> IsTrimmable(d)
    ensures IsAsciiUpper(c) ==> d as int == c as int + 32
    ensures !IsAsciiUpper(c) ==> d == c
  {
    if IsAsciiUpper(c) then (c as int - 'A' as int + 'a' as int) as char else c
  }

  /** `String.toLowerCase()` on ASCII: same length, each char lowered in place. */
  function ToLowerCase(s: string): (r: string)
    ensures |r| == |s|
    ensures forall i :: 0 <= i < |s| ==> r[i] == LowerChar(s[i])
  {
    if s == [] then [] else [LowerChar(s[0])] + ToLowerCase(s[1..])
  }

  lemma LowerCaseHasNoUpperCase(s: string)
    ensures HasNoUpperCase(ToLowerCase(s))
  {
  }

  /** Lowering changes no char into or out of the trimmable range, so a trimmed string stays trimmed. */
  lemma LowerCaseKeepsTrimmedEnds(s: string)
    requires HasNoTrimmableEnds(s)
    ensures HasNoTrimmableEnds(ToLowerCase(s))
  {
    if s != [] {
      assert ToLowerCase(s)[|s| - 1] == LowerChar(s[|s| - 1]);
    }
  }

  /** Lowering keeps a blank string blank and a non-blank one non-blank. */
  lemma LowerCaseKeepsBlank(s: string)
    ensures IsBlank(ToLowerCase(s)) <==> IsBlank(s)
  {
    assert forall i :: 0 <= i < |s| ==> ToLowerCase(s)[i] == LowerChar(s[i]);
  }

  /** Lowering a string that is already lower case changes nothing. */
  lemma LowerCaseOfLower(s: string)
    requires HasNoUpperCase(s)
    ensures ToLowerCase(s) == s
  {
    assert forall i :: 0 <= i < |s| ==> ToLowerCase(s)[i] == s[i];
  }

  /** Trimming a string that has nothing to trim changes nothing. */
  lemma TrimOfTrimmed(s: string)
    requires HasNoTrimmableEnds(s)
    ensures Trim(s) == s
  {
  }

  /** `trim` is idempotent. */
  lemma TrimIdempotent(s: string)
    ensures Trim(Trim(s)) == Trim(s)
  {
    TrimOfTrimmed(Trim(s));
  }

  lemma {:induction false} TrimStartLowerCase(s: string)
    ensures TrimStart(ToLowerCase(s)) == ToLowerCase(TrimStart(s))
    decreases |s|
  {
    if s != [] {
      assert ToLowerCase(s)[1..] == ToLowerCase(s[1..]);
      TrimStartLowerCase(s[1..]);
    }
  }

  lemma {:induction false} TrimEndLowerCase(s: string)
    ensures TrimEnd(ToLowerCase(s)) == ToLowerCase(TrimEnd(s))
    decreases |s|
  {
    if s != [] {
      assert ToLowerCase(s)[..|s| - 1] == ToLowerCase(s[..|s| - 1]);
      TrimEndLowerCase(s[..|s| - 1]);
    }
  }

  /**
   * ASCII lowering never turns a trimmable char into a kept one or back, so
   * `s.toLowerCase().trim()` and `s.trim().toLowerCase()` agree.
   */
  lemma LowerCaseTrimCommute(s: string)
    ensures Trim(ToLowerCase(s)) == ToLowerCase(Trim(s))
  {
    TrimStartLowerCase(s);
    TrimEndLowerCase(TrimStart(s));
  }
}
