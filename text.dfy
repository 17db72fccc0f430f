/**
 * The handful of Python string operations the scraper relies on: `str.isspace`
 * (which is also what the regex class `\s` matches), `str.strip`, `startswith`,
 * `endswith`, the substring test `in`, and the per-character case folding that
 * `re.I` applies to the letters of the scraper's patterns.
 */
module Text {

  /** Python's whitespace set: `c.isspace()`, and the characters `\s` matches in a `str` pattern. */
  predicate IsSpace(c: char) {
    ('\t' <= c <= '\r') || ('\U{001C}' <= c <= '\U{001F}') || c == ' ' ||
    c == '\U{0085}' || c == '\U{00A0}' || c == '\U{1680}' ||
    ('\U{2000}' <= c <= '\U{200A}') || c == '\U{2028}' || c == '\U{2029}' ||
    c == '\U{202F}' || c == '\U{205F}' || c == '\U{3000}'
  }

  /** The decimal digits `\d` is taken to match (ASCII only in this model). */
  predicate IsDigit(c: char) {
    '0' <= c <= '9'
  }

  predicate IsAsciiLetter(c: char) {
    ('a' <= c <= 'z') || ('A' <= c <= 'Z')
  }

  /** `s.lstrip()`. */
  function TrimStart(s: string): (r: string)
    ensures |r| <= |s|
    ensures forall i :: 0 <= i < |s| - |r| ==> IsSpace(s[i])
    ensures r == [] || !IsSpace(r[0])
  {
    if s != [] && IsSpace(s[0]) then TrimStart(s[1..]) else s
  }

  /** `s.rstrip()`. */
  function TrimEnd(s: string): (r: string)
    ensures |r| <= |s|
    ensures forall i :: |r| <= i < |s| ==> IsSpace(s[i])
    ensures r == [] || !IsSpace(r[|r| - 1])
  {
    if s != [] && IsSpace(s[|s| - 1]) then TrimEnd(s[..|s| - 1]) else s
  }

  /** What `lstrip` keeps is a suffix of its input. */
  lemma {:induction false} TrimStartIsSuffix(s: string)
    ensures TrimStart(s) == s[|s| - |TrimStart(s)|..]
  {
    if s != [] && IsSpace(s[0]) {
      TrimStartIsSuffix(s[1..]);
      assert s[1..][|s| - 1 - |TrimStart(s[1..])|..] == s[|s| - |TrimStart(s)|..];
    }
  }

  /** What `rstrip` keeps is a prefix of its input. */
  lemma {:induction false} TrimEndIsPrefix(s: string)
    ensures TrimEnd(s) == s[..|TrimEnd(s)|]
  {
    if s != [] && IsSpace(s[|s| - 1]) {
      TrimEndIsPrefix(s[..|s| - 1]);
      assert s[..|s| - 1][..|TrimEnd(s)|] == s[..|TrimEnd(s)|];
    }
  }

  /** `s.strip()`. */
  function Strip(s: string): string {
    TrimEnd(TrimStart(s))
  }

  /**
   * `s.strip()` is the slice `s[lo:hi]` left after removing whitespace from both ends:
   * everything outside the slice is whitespace.
   */
  lemma StripIsSlice(s: string) returns (lo: nat, hi: nat)
    ensures lo <= hi <= |s| && Strip(s) == s[lo..hi]
    ensures forall i :: 0 <= i < lo ==> IsSpace(s[i])
    ensures forall i :: hi <= i < |s| ==> IsSpace(s[i])
  {
    var t := TrimStart(s);
    TrimStartIsSuffix(s);
    TrimEndIsPrefix(t);
    lo := |s| - |t|;
    hi := lo + |TrimEnd(t)|;
    assert t == s[lo..];
    assert Strip(s) == t[..hi - lo];
    forall i | hi <= i < |s|
      ensures IsSpace(s[i])
    {
      assert s[i] == t[i - lo];
    }

  }

  /** `s.strip()` neither starts nor ends with whitespace. */
  lemma StripEnds(s: string)
    ensures var v := Strip(s); v == [] || (!IsSpace(v[0]) && !IsSpace(v[|v| - 1]))
  {
    var t := TrimStart(s);
    TrimEndIsPrefix(t);
    if Strip(s) != [] {
      assert Strip(s)[0] == t[0];
    }
  }

  /** `s.strip()` leaves `s` unchanged exactly when `s` neither starts nor ends with whitespace. */
  lemma StripFixedIffUnpadded(s: string)
    ensures Strip(s) == s <==> s == [] || (!IsSpace(s[0]) && !IsSpace(s[|s| - 1]))
  {
    StripEnds(s);
  }

  /** `s.strip()` is empty exactly when `s` is all whitespace (the anchors the scraper skips). */
  lemma StripEmptyIffBlank(s: string)
    ensures Strip(s) == [] <==> forall i :: 0 <= i < |s| ==> IsSpace(s[i])
  {
    var lo, hi := StripIsSlice(s);
    StripEnds(s);
    if Strip(s) == [] {
      assert lo == hi;
    } else {
      assert Strip(s)[0] == s[lo];
    }
  }

  /** A character absent from `s` is absent from `s.strip()`. */
  lemma StripKeepsAbsent(s: string, c: char)
    requires c !in s
    ensures c !in Strip(s)
  {
    var lo, hi := StripIsSlice(s);
    assert forall x :: x in s[lo..hi] ==> x in s;
  }

  /** `s.startswith(p)`. */
  predicate StartsWith(s: string, p: string) {
    |p| <= |s| && s[..|p|] == p
  }

  /** `s.endswith(t)`. */
  predicate EndsWith(s: string, t: string) {
    |t| <= |s| && s[|s| - |t|..] == t
  }

  /** Python's `sub in s` for strings. */
  predicate Contains(s: string, sub: string)
    decreases |s|
  {
    StartsWith(s, sub) || (s != [] && Contains(s[1..], sub))
  }

  /** An occurrence at any position `i` makes `sub in s` true. */
  lemma {:induction false} ContainsAt(s: string, sub: string, i: nat)
    requires i <= |s| && StartsWith(s[i..], sub)
    ensures Contains(s, sub)
    decreases i
  {
    if i > 0 {
      assert s[1..][i - 1..] == s[i..];
      ContainsAt(s[1..], sub, i - 1);
    }
  }

  /** Every character of a substring occurs in the string. */
  lemma {:induction false} ContainsKeepsChars(s: string, sub: string, c: char)
    requires Contains(s, sub) && c in sub
    ensures c in s
    decreases |s|
  {
    if StartsWith(s, sub) {
      assert c in s[..|sub|];
    } else {
      ContainsKeepsChars(s[1..], sub, c);
    }
  }

  /**
   * The case folding `re.I` performs on the letters that occur in the scraper's
   * case-insensitive patterns (`pdf`, `doc`, `docx`, `CV`, `curriculum`): ASCII
   * upper case folds to lower case, and both `İ` (U+0130) and `ı` (U+0131) match `i`.
   */
  function Fold(c: char): (f: char)
    ensures IsAsciiLetter(c) ==> IsAsciiLetter(f) && 'a' <= f <= 'z'
    ensures 'a' <= c <= 'z' ==> f == c
    ensures 'A' <= c <= 'Z' ==> f as int == c as int + 32
  {
    if 'A' <= c <= 'Z' then (c as int + 32) as char
    else if c == '\U{0130}' || c == '\U{0131}' then 'i'
    else c
  }

  /** Folding a whole string, character by character. */
  function FoldAll(s: string): string {
    seq(|s|, i requires 0 <= i < |s| => Fold(s[i]))
  }

  /** Two characters that are the same ASCII letter in different cases. */
  predicate CaseVariants(c: char, d: char) {
    IsAsciiLetter(c) && IsAsciiLetter(d) && (c as int - d as int == 32 || d as int - c as int == 32)
  }

  /** Strings that differ only in the case of ASCII letters fold to the same string. */
  lemma FoldAllIgnoresCase(s: string, t: string)
    requires |s| == |t|
    requires forall i :: 0 <= i < |s| ==> s[i] == t[i] || CaseVariants(s[i], t[i])
    ensures FoldAll(s) == FoldAll(t)
  {
    forall i | 0 <= i < |s|
      ensures FoldAll(s)[i] == FoldAll(t)[i]
    {
      if s[i] != t[i] {
        assert Fold(s[i]) as int == Fold(t[i]) as int;
      }
    }
  }

  /** Folding a folded string changes nothing. */
  lemma FoldAllIdempotent(s: string)
    ensures FoldAll(FoldAll(s)) == FoldAll(s)
  {
    var f := FoldAll(s);
    forall i | 0 <= i < |s|
      ensures FoldAll(f)[i] == f[i]
    {
      assert Fold(Fold(s[i])) == Fold(s[i]);
    }
  }
}
