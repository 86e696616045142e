/**
 * String helpers the application relies on from JavaScript's String API:
 * `trim`, ASCII case mapping, decimal rendering of numbers.
 */
module Text {

  /** The characters `String.prototype.trim` removes: WhiteSpace and LineTerminator. */
  predicate IsJsWhitespace(c: char)
  {
    c == '\t' || c == '\n' || c == '\U{000B}' || c == '\U{000C}' || c == '\r' || c == ' '
    || c == '\U{00A0}' || c == '\U{1680}' || ('\U{2000}' <= c <= '\U{200A}')
    || c == '\U{2028}' || c == '\U{2029}' || c == '\U{202F}' || c == '\U{205F}'
    || c == '\U{3000}' || c == '\U{FEFF}'
  }

  /** The index of the first non-whitespace character at or after `i`. */
  function SkipWhitespace(s: string, i: nat): (j: nat)
    requires i <= |s|
    ensures i <= j <= |s|
    ensures forall k :: i <= k < j ==> IsJsWhitespace(s[k])
    ensures j < |s| ==> !IsJsWhitespace(s[j])
    decreases |s| - i
  {
    if i < |s| && IsJsWhitespace(s[i]) then SkipWhitespace(s, i + 1) else i
  }

  /** The index just past the last non-whitespace character before `j`. */
  function SkipWhitespaceBack(s: string, j: nat): (i: nat)
    requires j <= |s|
    ensures i <= j
    ensures forall k :: i <= k < j ==> IsJsWhitespace(s[k])
    ensures 0 < i ==> !IsJsWhitespace(s[i - 1])
    decreases j
  {
    if 0 < j && IsJsWhitespace(s[j - 1]) then SkipWhitespaceBack(s, j - 1) else j
  }

  /** Drops leading whitespace. */
  function TrimStart(s: string): (r: string)
    ensures |r| <= |s| && r == s[|s| - |r|..]
    ensures forall i :: 0 <= i < |s| - |r| ==> IsJsWhitespace(s[i])
    ensures r != [] ==> !IsJsWhitespace(r[0])
  {
    s[SkipWhitespace(s, 0)..]
  }

  /** Drops trailing whitespace. */
  function TrimEnd(s: string): (r: string)
    ensures |r| <= |s| && r == s[..|r|]
    ensures forall i :: |r| <= i < |s| ==> IsJsWhitespace(s[i])
    ensures r != [] ==> !IsJsWhitespace(r[|r| - 1])
  {
    s[..SkipWhitespaceBack(s, |s|)]
  }

  /** `s.trim()`. */
  function Trim(s: string): string
  {
    TrimEnd(TrimStart(s))
  }

  /** `s.trim() === ""`. */
  predicate IsBlank(s: string)
  {
    Trim(s) == []
  }

  /** Trimming keeps a contiguous run of `s`. */
  lemma {:induction false} TrimIsInfix(s: string)
    ensures var i := |s| - |TrimStart(s)|;
      i + |Trim(s)| <= |s| && Trim(s) == s[i..i + |Trim(s)|]
  {
    PrefixOfSuffix(s, TrimStart(s), TrimEnd(TrimStart(s)));
  }

  /** A trimmed string has no whitespace at either end. */
  lemma TrimEndsAreNotWhitespace(s: string)
    ensures Trim(s) != [] ==> !IsJsWhitespace(Trim(s)[0]) && !IsJsWhitespace(Trim(s)[|Trim(s)| - 1])
  {
    TrimEndKeepsHead(TrimStart(s));
  }

  lemma TrimEndKeepsHead(t: string)
    requires t != [] ==> !IsJsWhitespace(t[0])
    ensures TrimEnd(t) != [] ==> !IsJsWhitespace(TrimEnd(t)[0])
  {
    if TrimEnd(t) != [] {
      assert TrimEnd(t)[0] == t[0];
    }
  }

  lemma PrefixOfSuffix(s: string, t: string, u: string)
    requires |t| <= |s| && t == s[|s| - |t|..]
    requires |u| <= |t| && u == t[..|u|]
    ensures |s| - |t| + |u| <= |s| && u == s[|s| - |t|..|s| - |t| + |u|]
  {
  }

  /** A blank string is exactly one made only of whitespace. */
  lemma {:induction false} BlankIffAllWhitespace(s: string)
    ensures IsBlank(s) <==> forall i :: 0 <= i < |s| ==> IsJsWhitespace(s[i])
  {
    var t := TrimStart(s);
    if t != [] {
      assert t[0] == s[|s| - |t|];
      assert !IsJsWhitespace(t[0]);
    }
  }

  /** A string with no whitespace at either end is its own trim. */
  lemma TrimOfTrimmed(s: string)
    requires s == [] || (!IsJsWhitespace(s[0]) && !IsJsWhitespace(s[|s| - 1]))
    ensures Trim(s) == s
  {
  }

  /** Trimming is idempotent. */
  lemma TrimIdempotent(s: string)
    ensures Trim(Trim(s)) == Trim(s)
  {
    TrimEndsAreNotWhitespace(s);
    TrimOfTrimmed(Trim(s));
  }

  /** `c.toUpperCase()` restricted to ASCII letters. */
  function AsciiUpper(c: char): (r: char)
  {
    if 'a' <= c <= 'z' then (c as int - 32) as char else c
  }

  /** `c.toLowerCase()` restricted to ASCII letters. */
  function AsciiLower(c: char): (r: char)
  {
    if 'A' <= c <= 'Z' then (c as int + 32) as char else c
  }

  /** `s.toLowerCase()` restricted to ASCII letters. */
  function LowerCase(s: string): (r: string)
    ensures |r| == |s|
    ensures forall i :: 0 <= i < |s| ==> r[i] == AsciiLower(s[i])
  {
    seq(|s|, i requires 0 <= i < |s| => AsciiLower(s[i]))
  }

  /** ASCII case mapping leaves every non-letter alone, so whitespace stays
      whitespace and nothing else becomes whitespace. */
  lemma CaseMappingKeepsNonLetters(c: char)
    ensures !('a' <= c <= 'z') ==> AsciiUpper(c) == c
    ensures !('A' <= c <= 'Z') ==> AsciiLower(c) == c
    ensures IsJsWhitespace(AsciiUpper(c)) == IsJsWhitespace(c)
    ensures IsJsWhitespace(AsciiLower(c)) == IsJsWhitespace(c)
  {
  }

  /** Lower-casing forgets an earlier upper-casing, and does nothing twice. */
  lemma CaseMappingLaws(c: char)
    ensures AsciiLower(AsciiUpper(c)) == AsciiLower(c)
    ensures AsciiLower(AsciiLower(c)) == AsciiLower(c)
    ensures !('a' <= AsciiUpper(c) <= 'z')
    ensures !('A' <= AsciiLower(c) <= 'Z')
  {
  }

  /** `t.charAt(0).toUpperCase() + t.slice(1).toLowerCase()`. */
  function Capitalize(t: string): (r: string)
    requires t != []
    ensures |r| == |t|
  {
    [AsciiUpper(t[0])] + LowerCase(t[1..])
  }

  /** A capitalised string has an upper-case head, a lower-case tail, the same
      letters up to case, and whitespace exactly where the input had it. */
  lemma CapitalizeProperties(t: string)
    requires t != []
    ensures var r := Capitalize(t);
      && !('a' <= r[0] <= 'z')
      && (forall i :: 1 <= i < |r| ==> !('A' <= r[i] <= 'Z'))
      && LowerCase(r) == LowerCase(t)
      && (forall i :: 0 <= i < |r| ==> IsJsWhitespace(r[i]) == IsJsWhitespace(t[i]))
  {
    var r := Capitalize(t);
    CaseMappingLaws(t[0]);
    CaseMappingKeepsNonLetters(t[0]);
    forall i | 1 <= i < |r|
      ensures !('A' <= r[i] <= 'Z') && AsciiLower(r[i]) == AsciiLower(t[i])
      ensures IsJsWhitespace(r[i]) == IsJsWhitespace(t[i])
    {
      assert r[i] == AsciiLower(t[i]);
      CaseMappingLaws(t[i]);
      CaseMappingKeepsNonLetters(t[i]);
    }
  }

  /** Capitalising a capitalised string changes nothing. */
  lemma CapitalizeFixesCapitalized(t: string)
    requires t != [] && !('a' <= t[0] <= 'z')
    requires forall i :: 1 <= i < |t| ==> !('A' <= t[i] <= 'Z')
    ensures Capitalize(t) == t
  {
    CaseMappingKeepsNonLetters(t[0]);
    forall i | 1 <= i < |t| ensures Capitalize(t)[i] == t[i] {
      CaseMappingKeepsNonLetters(t[i]);
    }
  }

  /** The character of a decimal digit. */
  function DigitChar(d: nat): (c: char)
    requires d < 10
    ensures '0' <= c <= '9'
  {
    ('0' as int + d) as char
  }

  /** The value of a decimal digit character. */
  function DigitValue(c: char): nat
    requires '0' <= c <= '9'
  {
    c as int - '0' as int
  }

  /** JavaScript's rendering of a non-negative integer as a string (`${n}`). */
  function DecimalDigits(n: nat): (s: string)
    ensures 1 <= |s|
    ensures forall i :: 0 <= i < |s| ==> '0' <= s[i] <= '9'
    ensures n < 10 ==> |s| == 1
    ensures 10 <= n < 100 ==> |s| == 2
    ensures 100 <= n < 1000 ==> |s| == 3
    decreases n
  {
    if n < 10 then [DigitChar(n)] else DecimalDigits(n / 10) + [DigitChar(n % 10)]
  }

  /** Reads a string of decimal digits back as a number. */
  function DecimalValue(s: string): nat
    requires forall i :: 0 <= i < |s| ==> '0' <= s[i] <= '9'
    decreases |s|
  {
    if s == [] then 0 else DecimalValue(s[..|s| - 1]) * 10 + DigitValue(s[|s| - 1])
  }

  /** Rendering a number and reading it back gives the number: distinct counters
      give distinct renderings. */
  lemma {:induction false} DecimalRoundTrip(n: nat)
    ensures DecimalValue(DecimalDigits(n)) == n
    decreases n
  {
    if n >= 10 {
      DecimalRoundTrip(n / 10);
      var s := DecimalDigits(n);
      assert s[..|s| - 1] == DecimalDigits(n / 10);
    }
  }
}
