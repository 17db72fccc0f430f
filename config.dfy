/**
 * The scraper's configuration: the two sites' base URLs, the county-code table,
 * and the email and Romanian telephone patterns, the latter stated as predicates
 * on the strings a full match of each pattern can be.
 */
module Config {
  import opened Text

  const DEPUTIES_BASE_URL: string := "https://www.cdep.ro/pls/parlam/"
  const SENATE_BASE_URL: string := "https://www.senat.ro/"

  /** The county names in code order: entry `n - 1` names county `n`. */
  const COUNTY_NAMES: seq<string> := [
    "ALBA", "ARAD", "ARGEȘ", "BACĂU", "BIHOR",
    "BISTRIȚA-NĂSĂUD", "BOTOȘANI", "BRAȘOV", "BRĂILA",
    "BUZĂU", "CARAȘ-SEVERIN", "CĂLĂRAȘI", "CLUJ",
    "CONSTANȚA", "COVASNA", "DÂMBOVIȚA", "DOLJ",
    "GALAȚI", "GIURGIU", "GORJ", "HARGHITA",
    "HUNEDOARA", "IALOMIȚA", "IAȘI", "ILFOV",
    "MARAMUREȘ", "MEHEDINȚI", "MUREȘ", "NEAMȚ",
    "OLT", "PRAHOVA", "SATU MARE", "SĂLAJ",
    "SIBIU", "SUCEAVA", "TELEORMAN", "TIMIȘ",
    "TULCEA", "VASLUI", "VÂLCEA", "VRANCEA",
    "BUCUREȘTI", "DIASPORA"
  ]

  function DigitChar(d: nat): char
    requires d < 10
  {
    '0' + d as char
  }

  /** `str(n)` for a number below 100. */
  function Decimal(n: nat): (s: string)
    requires n < 100
    ensures 1 <= |s| <= 2
  {
    if n < 10 then [DigitChar(n)] else [DigitChar(n / 10), DigitChar(n % 10)]
  }

  /** `int(s)` for a string of ASCII digits. */
  function Parse(s: string): nat {
    if s == [] then 0
    else
      var c := s[|s| - 1];
      Parse(s[..|s| - 1]) * 10 + (if IsDigit(c) then (c - '0') as nat else 0)
  }

  /** Reading back a number written in decimal gives the number. */
  lemma ParseDecimal(n: nat)
    requires n < 100
    ensures Parse(Decimal(n)) == n
  {
    var s := Decimal(n);
    if n >= 10 {
      assert s[..1] == [DigitChar(n / 10)] && s[..1][..0] == [];
      assert Parse(s[..1]) == n / 10;
      assert Parse(s) == n / 10 * 10 + n % 10;
    } else {
      assert s[..0] == [];
    }
  }

  /** The codes `"1"` to `"m"`. */
  function CodeKeys(m: nat): set<string>
    requires m < 100
  {
    set n: nat | 1 <= n <= m :: Decimal(n)
  }

  lemma CodesParse()
    ensures forall k :: k in CodeKeys(43) ==> 1 <= Parse(k) <= 43
  {
    forall k | k in CodeKeys(43)
      ensures 1 <= Parse(k) <= 43
    {
      var n: nat :| 1 <= n <= 43 && k == Decimal(n);
      ParseDecimal(n);
    }
  }

  function CountyName(code: string): string
    requires code in CodeKeys(43)
  {
    CodesParse();
    COUNTY_NAMES[Parse(code) - 1]
  }

  /**
   * County codes (as decimal strings) to county names: the same 43 pairs as the
   * dictionary literal, built from the names in code order. Reference data the
   * scraping logic never reads.
   */
  const COUNTIES: map<string, string> := map code | code in CodeKeys(43) :: CountyName(code)

  /** There are `m` distinct codes from `"1"` to `"m"`. */
  lemma {:induction false} CodeKeysCount(m: nat)
    requires m < 100
    ensures |CodeKeys(m)| == m
  {
    if m > 0 {
      CodeKeysCount(m - 1);
      assert CodeKeys(m) == CodeKeys(m - 1) + {Decimal(m)};
      if Decimal(m) in CodeKeys(m - 1) {
        var n: nat :| 1 <= n <= m - 1 && Decimal(n) == Decimal(m);
        ParseDecimal(n);
        ParseDecimal(m);
      }
    }
  }

  lemma CountiesDomain()
    ensures COUNTIES.Keys == CodeKeys(43)
  {
  }

  /** `COUNTIES` has exactly the 43 keys `"1"` to `"43"`. */
  lemma CountiesKeys()
    ensures |COUNTIES| == 43
    ensures forall k :: k in COUNTIES <==> exists n: nat :: 1 <= n <= 43 && k == Decimal(n)
  {
    CountiesDomain();
    CodeKeysCount(43);
  }

  /** Code `n` maps to the `n`-th name. */
  lemma CountyLookup(n: nat)
    requires 1 <= n <= 43
    ensures Decimal(n) in COUNTIES && COUNTIES[Decimal(n)] == COUNTY_NAMES[n - 1]
  {
    ParseDecimal(n);
  }

  // ---- EMAIL_PATTERN: [a-zA-Z0-9._%+-]+@[a-zA-Z0-9.-]+\.[a-zA-Z]{2,} ----

  predicate IsEmailLocalChar(c: char) {
    IsAsciiLetter(c) || IsDigit(c) || c == '.' || c == '_' || c == '%' || c == '+' || c == '-'
  }

  predicate IsEmailDomainChar(c: char) {
    IsAsciiLetter(c) || IsDigit(c) || c == '.' || c == '-'
  }

  /** Index of the first `c` in `s`, or `|s|` when there is none. */
  function IndexOf(s: string, c: char): (k: nat)
    ensures k <= |s|
    ensures k < |s| ==> s[k] == c
    ensures forall i :: 0 <= i < k ==> s[i] != c
  {
    if s == [] then 0 else if s[0] == c then 0 else 1 + IndexOf(s[1..], c)
  }

  /** Index of the last `c` in `s`, or -1 when there is none. */
  function LastIndexOf(s: string, c: char): (k: int)
    ensures -1 <= k < |s|
    ensures k >= 0 ==> s[k] == c
    ensures forall i :: k < i < |s| ==> s[i] != c
  {
    if s == [] then -1
    else if s[|s| - 1] == c then |s| - 1
    else LastIndexOf(s[..|s| - 1], c)
  }

  /**
   * `s` is a full match of `EMAIL_PATTERN`. Neither character class admits `@`, so the
   * `@` of a match is its first one; the letters-only tail admits no `.`, so the
   * separating `.` of the domain is its last one.
   */
  predicate IsEmailMatch(s: string) {
    var at := IndexOf(s, '@');
    0 < at < |s| &&
    (forall i :: 0 <= i < at ==> IsEmailLocalChar(s[i])) &&
    IsEmailDomain(s[at + 1..])
  }

  /** `d` is a full match of `[a-zA-Z0-9.-]+\.[a-zA-Z]{2,}`. */
  predicate IsEmailDomain(d: string) {
    var dot := LastIndexOf(d, '.');
    0 < dot && dot + 2 < |d| &&
    (forall i :: 0 <= i < dot ==> IsEmailDomainChar(d[i])) &&
    (forall i :: dot < i < |d| ==> IsAsciiLetter(d[i]))
  }

  /**
   * A full match of `EMAIL_PATTERN` holds exactly one `@`, at index `at`, and ends with a
   * `.` (at index `dot`, after the `@`) followed by at least two ASCII letters.
   */
  lemma EmailShape(s: string) returns (at: nat, dot: nat)
    requires IsEmailMatch(s)
    ensures 0 < at && at + 1 < dot && dot + 2 < |s|
    ensures s[at] == '@' && forall i :: 0 <= i < |s| && s[i] == '@' ==> i == at
    ensures s[dot] == '.' && forall i :: dot < i < |s| ==> IsAsciiLetter(s[i])
  {
    at := IndexOf(s, '@');
    var d := s[at + 1..];
    dot := at + 1 + LastIndexOf(d, '.');
    forall i | 0 <= i < |s| && s[i] == '@'
      ensures i == at
    {
    }
    forall i | dot < i < |s|
      ensures IsAsciiLetter(s[i])
    {
      assert s[i] == d[i - at - 1];
    }
  }

  // ---- PHONE_PATTERNS ----

  /** The separator class `[\s\-]`. */
  predicate IsSeparator(c: char) {
    IsSpace(c) || c == '-'
  }

  predicate AreDigits(s: string) {
    forall i :: 0 <= i < |s| ==> IsDigit(s[i])
  }

  /** `s` is a full match of `([\s\-]?\d{3}){n}`: `n` three-digit groups, each after at most one separator. */
  predicate DigitGroups(s: string, n: nat)
    decreases n
  {
    if n == 0 then s == []
    else if |s| > 0 && IsSeparator(s[0]) then
      |s| >= 4 && AreDigits(s[1..4]) && DigitGroups(s[4..], n - 1)
    else
      |s| >= 3 && AreDigits(s[..3]) && DigitGroups(s[3..], n - 1)
  }

  /** `s` is a full match of `[237]\d{2}[\s\-]?\d{3}[\s\-]?\d{3}`: the nine national digits. */
  predicate IsNationalNumber(s: string) {
    |s| >= 3 && (s[0] == '2' || s[0] == '3' || s[0] == '7') &&
    IsDigit(s[1]) && IsDigit(s[2]) && DigitGroups(s[3..], 2)
  }

  /** The two Romanian telephone patterns, in the order `PHONE_PATTERNS` lists them. */
  datatype PhonePattern = International | Local

  const PHONE_PATTERNS: seq<PhonePattern> := [International, Local]

  /**
   * A match of the first pattern, `(\+40|0040)[\s\-]?[237]\d{2}[\s\-]?\d{3}[\s\-]?\d{3}`,
   * split into its captured group (`prefix`) and the rest of the match.
   */
  datatype InternationalMatch = InternationalMatch(prefix: string, rest: string)

  predicate IsInternationalMatch(m: InternationalMatch) {
    (m.prefix == "+40" || m.prefix == "0040") &&
    (IsNationalNumber(m.rest) ||
     (|m.rest| > 0 && IsSeparator(m.rest[0]) && IsNationalNumber(m.rest[1..])))
  }

  /** `s` is a full match of the second pattern, `0[237]\d{2}[\s\-]?\d{3}[\s\-]?\d{3}`. */
  predicate IsLocalMatch(s: string) {
    |s| > 0 && s[0] == '0' && IsNationalNumber(s[1..])
  }

  /** The number of ASCII digits in `s`. */
  function DigitCount(s: string): (n: nat)
    ensures n <= |s|
  {
    if s == [] then 0 else (if IsDigit(s[0]) then 1 else 0) + DigitCount(s[1..])
  }

  lemma {:induction false} DigitCountAppend(a: string, b: string)
    ensures DigitCount(a + b) == DigitCount(a) + DigitCount(b)
  {
    if a == [] {
      assert a + b == b;
    } else {
      assert (a + b)[1..] == a[1..] + b;
      DigitCountAppend(a[1..], b);
    }
  }

  lemma {:induction false} DigitCountAllDigits(s: string)
    requires AreDigits(s)
    ensures DigitCount(s) == |s|
  {
    if s != [] {
      DigitCountAllDigits(s[1..]);
    }
  }

  /** Digits and separators only, and never two separators in a row. */
  predicate SingleSeparated(s: string) {
    (forall i :: 0 <= i < |s| ==> IsDigit(s[i]) || IsSeparator(s[i])) &&
    (forall i :: 0 < i < |s| ==> !(IsSeparator(s[i - 1]) && IsSeparator(s[i])))
  }

  /** Joining two such strings keeps the property unless a separator meets a separator at the seam. */
  lemma SingleSeparatedConcat(a: string, b: string)
    requires SingleSeparated(a) && SingleSeparated(b)
    requires a == [] || b == [] || !IsSeparator(a[|a| - 1]) || !IsSeparator(b[0])
    ensures SingleSeparated(a + b)
  {
    var s := a + b;
    forall i | 0 <= i < |s|
      ensures IsDigit(s[i]) || IsSeparator(s[i])
    {
      if i >= |a| { assert s[i] == b[i - |a|]; }
    }
    forall i | 0 < i < |s|
      ensures !(IsSeparator(s[i - 1]) && IsSeparator(s[i]))
    {
      if i > |a| {
        assert s[i - 1] == b[i - 1 - |a|] && s[i] == b[i - |a|];
      } else if i == |a| {
        assert s[i] == b[0];
      }
    }
  }

  /** A string of digits has no separator at all. */
  lemma DigitsSingleSeparated(s: string)
    requires AreDigits(s)
    ensures SingleSeparated(s)
  {
  }

  /** `n` digit groups hold `3n` digits in `3n` to `4n` characters. */
  lemma {:induction false} DigitGroupsCount(s: string, n: nat)
    requires DigitGroups(s, n)
    ensures DigitCount(s) == 3 * n && 3 * n <= |s| <= 4 * n
    decreases n
  {
    if n > 0 {
      var k := if IsSeparator(s[0]) then 4 else 3;
      var head, tail := s[..k], s[k..];
      assert s == head + tail;
      DigitGroupsCount(tail, n - 1);
      DigitCountAppend(head, tail);
      if k == 4 {
        var digits := head[1..];
        DigitCountAllDigits(digits);
        assert head == [head[0]] + digits;
        DigitCountAppend([head[0]], digits);
        assert DigitCount([head[0]]) == 0;
      } else {
        DigitCountAllDigits(head);
      }
    }
  }

  /** `n` digit groups never put two separators in a row, and end in a digit. */
  lemma {:induction false} DigitGroupsSeparated(s: string, n: nat)
    requires DigitGroups(s, n)
    ensures SingleSeparated(s)
    ensures n > 0 ==> |s| > 0 && IsDigit(s[|s| - 1])
    decreases n
  {
    if n > 0 {
      var k := if IsSeparator(s[0]) then 4 else 3;
      var head, tail := s[..k], s[k..];
      assert s == head + tail;
      DigitGroupsSeparated(tail, n - 1);
      if k == 4 {
        var digits := head[1..];
        DigitsSingleSeparated(digits);
        assert head == [head[0]] + digits;
        SingleSeparatedConcat([head[0]], digits);
      } else {
        DigitsSingleSeparated(head);
      }
      SingleSeparatedConcat(head, tail);
    }
  }

  /** The national part holds nine digits, starting with 2, 3 or 7, in 9 to 11 characters. */
  lemma NationalNumberShape(s: string)
    requires IsNationalNumber(s)
    ensures DigitCount(s) == 9 && 9 <= |s| <= 11
    ensures SingleSeparated(s) && IsDigit(s[|s| - 1])
  {
    var head, tail := s[..3], s[3..];
    assert s == head + tail;
    DigitGroupsCount(tail, 2);
    DigitGroupsSeparated(tail, 2);
    DigitCountAppend(head, tail);
    DigitCountAllDigits(head);
    DigitsSingleSeparated(head);
    SingleSeparatedConcat(head, tail);
  }

  /**
   * A match of the international pattern: its group is `+40` or `0040`; the rest holds
   * nine digits, the first of them 2, 3 or 7, with at most one separator before each
   * digit group, in 9 to 12 characters.
   */
  lemma InternationalShape(m: InternationalMatch)
    requires IsInternationalMatch(m)
    ensures m.prefix == "+40" || m.prefix == "0040"
    ensures DigitCount(m.rest) == 9 && 9 <= |m.rest| <= 12
    ensures SingleSeparated(m.rest)
    ensures var f := if IsDigit(m.rest[0]) then 0 else 1; m.rest[f] in "237"
  {
    if IsNationalNumber(m.rest) {
      NationalNumberShape(m.rest);
    } else {
      var first, tail := [m.rest[0]], m.rest[1..];
      NationalNumberShape(tail);
      assert m.rest == first + tail;
      DigitCountAppend(first, tail);
      assert DigitCount(first) == 0;
      SingleSeparatedConcat(first, tail);
    }
  }

  /**
   * A match of the local pattern: `0`, then 2, 3 or 7, ten digits in all, with at most
   * one separator before each digit group, in 10 to 12 characters.
   */
  lemma LocalShape(s: string)
    requires IsLocalMatch(s)
    ensures s[0] == '0' && s[1] in "237"
    ensures DigitCount(s) == 10 && 10 <= |s| <= 12
    ensures SingleSeparated(s)
  {
    var first, tail := [s[0]], s[1..];
    NationalNumberShape(tail);
    assert s == first + tail;
    DigitCountAppend(first, tail);
    assert DigitCount(first) == 1;
    SingleSeparatedConcat(first, tail);
  }
}
