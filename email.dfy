/**
  The e-mail check done at registration: the pattern
  `^[a-zA-Z0-9._%+-]+@[a-zA-Z0-9.-]+\.[a-zA-Z]{2,}$` applied with `re.match`.
  `EmailPattern` says what a match is (a split of the text into the pattern's
  pieces); `IsValidEmail` decides it without searching for the split.
 */
module Email {

  predicate IsAsciiLetter(c: char) {
    'a' <= c <= 'z' || 'A' <= c <= 'Z'
  }

  predicate IsAsciiDigit(c: char) {
    '0' <= c <= '9'
  }

  /** `[a-zA-Z0-9._%+-]`, the characters before the `@`. */
  predicate IsLocalChar(c: char) {
    IsAsciiLetter(c) || IsAsciiDigit(c) || c in "._%+-"
  }

  /** `[a-zA-Z0-9.-]`, the characters of the domain before its last dot. */
  predicate IsDomainChar(c: char) {
    IsAsciiLetter(c) || IsAsciiDigit(c) || c == '.' || c == '-'
  }

  /** The text splits as `local @ domain . tld`: a non-empty run of local
      characters, the `@` at `at`, a non-empty run of domain characters, a dot
      at `dot`, and at least two ASCII letters running to the end. */
  ghost predicate SplitsAt(s: string, at: int, dot: int) {
    && 0 < at && at + 1 < dot && dot + 2 < |s|
    && (forall k :: 0 <= k < at ==> IsLocalChar(s[k]))
    && s[at] == '@'
    && (forall k :: at < k < dot ==> IsDomainChar(s[k]))
    && s[dot] == '.'
    && (forall k :: dot < k < |s| ==> IsAsciiLetter(s[k]))
  }

  /** The regular expression matches the whole text. */
  ghost predicate EmailPattern(s: string) {
    exists at, dot :: SplitsAt(s, at, dot)
  }

  /** The first position of `c` in `s`, or `|s|` when `c` does not occur. */
  function IndexOf(s: string, c: char): (i: nat)
    ensures i <= |s|
    ensures i < |s| ==> s[i] == c
    ensures forall k :: 0 <= k < i ==> s[k] != c
  {
    if |s| == 0 then 0
    else if s[0] == c then 0
    else 1 + IndexOf(s[1..], c)
  }

  /** The last position of `c` in `s`, or `-1` when `c` does not occur. */
  function LastIndexOf(s: string, c: char): (i: int)
    ensures -1 <= i < |s|
    ensures 0 <= i ==> s[i] == c
    ensures forall k :: i < k < |s| ==> s[k] != c
  {
    if |s| == 0 then -1
    else if s[|s| - 1] == c then |s| - 1
    else LastIndexOf(s[..|s| - 1], c)
  }

  /** The part after the `@`: domain characters only, and its last dot is
      preceded by something and followed by two or more ASCII letters. */
  predicate IsValidDomain(d: string) {
    && (forall k :: 0 <= k < |d| ==> IsDomainChar(d[k]))
    && var dot := LastIndexOf(d, '.');
       && 0 < dot && dot + 2 < |d|
       && forall k :: dot < k < |d| ==> IsAsciiLetter(d[k])
  }

  /** `is_valid_email`: the local part runs up to the first `@`. */
  predicate IsValidEmail(s: string)
  {
    var at := IndexOf(s, '@');
    && 0 < at < |s|
    && (forall k :: 0 <= k < at ==> IsLocalChar(s[k]))
    && IsValidDomain(s[at + 1..])
  }

  /** The decision procedure accepts exactly the texts the pattern matches. */
  lemma IsValidEmailMatchesPattern(s: string)
    ensures IsValidEmail(s) <==> EmailPattern(s)
  {
    if IsValidEmail(s) {
      ValidEmailSplits(s);
    }
    if EmailPattern(s) {
      var at, dot :| SplitsAt(s, at, dot);
      SplitIsValidEmail(s, at, dot);
    }
  }

  /** An accepted text splits at its first `@` and the last dot after it. */
  lemma ValidEmailSplits(s: string)
    requires IsValidEmail(s)
    ensures SplitsAt(s, IndexOf(s, '@'), IndexOf(s, '@') + 1 + LastIndexOf(s[IndexOf(s, '@') + 1..], '.'))
  {
    var at := IndexOf(s, '@');
    var d := s[at + 1..];
    var dot := LastIndexOf(d, '.');
    forall k | at < k < at + 1 + dot ensures IsDomainChar(s[k]) {
      assert s[k] == d[k - at - 1];
    }
    forall k | at + 1 + dot < k < |s| ensures IsAsciiLetter(s[k]) {
      assert s[k] == d[k - at - 1];
    }
  }

  /** Any split the pattern allows puts the `@` first and the dot last, so the
      decision procedure finds it. */
  lemma SplitIsValidEmail(s: string, at: int, dot: int)
    requires SplitsAt(s, at, dot)
    ensures IsValidEmail(s)
  {
    assert IndexOf(s, '@') == at by {
      forall k | 0 <= k < at ensures s[k] != '@' { assert IsLocalChar(s[k]); }
    }
    var d := s[at + 1..];
    var ld := dot - at - 1;
    assert d[ld] == '.';
    forall k | ld < k < |d| ensures d[k] != '.' && IsAsciiLetter(d[k]) {
      assert d[k] == s[k + at + 1];
    }
    LastIndexOfIsLast(d, '.', ld);
    forall k | 0 <= k < |d| ensures IsDomainChar(d[k]) {
      assert d[k] == s[k + at + 1];
    }
  }

  /** A position holding `c` with no `c` after it is the last one. */
  lemma LastIndexOfIsLast(s: string, c: char, i: nat)
    requires i < |s| && s[i] == c
    requires forall k :: i < k < |s| ==> s[k] != c
    ensures LastIndexOf(s, c) == i
  {
  }
}
