/**
 * The few JavaScript built-ins the task application's logic leans on:
 * numbers produced by `parseInt`, their conversion to text in template
 * strings, `String.prototype.trim` and `Array.prototype.join`.
 */
module Js {

  /** A number produced by `parseInt(text, 10)`: an integer, or NaN when the text has no leading digits. */
  datatype Number = Int(value: int) | NaN

  // ---------------------------------------------------------------------------
  // Number to text, as `${n}` renders it

  function DigitChar(d: nat): (c: char)
    requires d < 10
    ensures '0' <= c <= '9'
  {
    ['0', '1', '2', '3', '4', '5', '6', '7', '8', '9'][d]
  }

  function DigitValue(c: char): nat
    requires '0' <= c <= '9'
  {
    (c as int - '0' as int) as nat
  }

  /** The decimal digits of a natural number, as `String(n)` writes them. */
  function NatToString(n: nat): (s: string)
    ensures |s| > 0
    ensures forall i | 0 <= i < |s| :: '0' <= s[i] <= '9'
    ensures s[0] == '0' ==> n == 0
  {
    if n < 10 then [DigitChar(n)] else NatToString(n / 10) + [DigitChar(n % 10)]
  }

  /** The value a string of decimal digits denotes. */
  function DigitsValue(s: string): nat
    requires forall i | 0 <= i < |s| :: '0' <= s[i] <= '9'
  {
    if s == [] then 0 else DigitsValue(s[..|s| - 1]) * 10 + DigitValue(s[|s| - 1])
  }

  lemma {:induction false} DigitRoundTrip(d: nat)
    requires d < 10
    ensures DigitValue(DigitChar(d)) == d
  {
    if d == 0 {} else if d == 1 {} else if d == 2 {} else if d == 3 {} else if d == 4 {}
    else if d == 5 {} else if d == 6 {} else if d == 7 {} else if d == 8 {} else {}
  }

  /** Reading back the digits `NatToString` writes gives the number again. */
  lemma {:induction false} NatToStringRoundTrip(n: nat)
    ensures DigitsValue(NatToString(n)) == n
  {
    var s := NatToString(n);
    if n < 10 {
      DigitRoundTrip(n);
      assert s[..|s| - 1] == [];
    } else {
      NatToStringRoundTrip(n / 10);
      DigitRoundTrip(n % 10);
      assert s[..|s| - 1] == NatToString(n / 10);
    }
  }

  /** `${n}` for a number from `parseInt`: its decimal form, a leading '-' when negative, or "NaN". */
  function ToString(n: Number): (s: string)
    ensures n.NaN? <==> s == "NaN"
    ensures n.Int? && n.value >= 0 ==> s == NatToString(n.value)
    ensures n.Int? && n.value < 0 ==> s == "-" + NatToString(-n.value)
  {
    match n
    case NaN => "NaN"
    case Int(v) =>
      var s := if v < 0 then "-" + NatToString(-v) else NatToString(v);
      assert s[0] != 'N';
      s
  }

  // ---------------------------------------------------------------------------
  // String.prototype.trim

  /** The characters `trim` removes: ECMAScript's WhiteSpace and LineTerminator code points. */
  predicate IsWhitespace(c: char) {
    || c == ' ' || c == '\t' || c == '\n' || c == '\r'
    || c == '\U{000B}' || c == '\U{000C}' || c == '\U{00A0}' || c == '\U{FEFF}'
    || c == '\U{1680}' || ('\U{2000}' <= c <= '\U{200A}')
    || c == '\U{2028}' || c == '\U{2029}' || c == '\U{202F}' || c == '\U{205F}' || c == '\U{3000}'
  }

  predicate AllWhitespace(s: string) {
    forall i | 0 <= i < |s| :: IsWhitespace(s[i])
  }

  /** `s` without its leading whitespace: a suffix of `s` that starts with a non-whitespace character. */
  function TrimStart(s: string): (r: string)
    ensures |r| <= |s| && r == s[|s| - |r|..]
    ensures AllWhitespace(s[..|s| - |r|])
    ensures r != [] ==> !IsWhitespace(r[0])
  {
    if s != [] && IsWhitespace(s[0]) then
      var r := TrimStart(s[1..]);
      assert forall i | 1 <= i < |s| - |r| :: s[i] == s[1..][..|s| - 1 - |r|][i - 1];
      r
    else s
  }

  /** `s` without its trailing whitespace: a prefix of `s` that ends with a non-whitespace character. */
  function TrimEnd(s: string): (r: string)
    ensures |r| <= |s| && r == s[..|r|]
    ensures AllWhitespace(s[|r|..])
    ensures r != [] ==> !IsWhitespace(r[|r| - 1])
  {
    if s != [] && IsWhitespace(s[|s| - 1]) then
      var r := TrimEnd(s[..|s| - 1]);
      assert forall i | |r| <= i < |s| - 1 :: s[i] == s[..|s| - 1][|r|..][i - |r|];
      r
    else s
  }

  /**
   * `s.trim()`: empty exactly when `s` is all whitespace, otherwise starting and
   * ending with a non-whitespace character; text with no whitespace at its ends is kept as it is.
   */
  function Trim(s: string): (r: string)
    ensures |r| <= |s|
    ensures r == [] <==> AllWhitespace(s)
    ensures r != [] ==> !IsWhitespace(r[0]) && !IsWhitespace(r[|r| - 1])
    ensures s == [] || (!IsWhitespace(s[0]) && !IsWhitespace(s[|s| - 1])) ==> r == s
  {
    var t := TrimStart(s);
    var r := TrimEnd(t);
    TrimEmptyIff(s, t, r);
    assert r != [] ==> r[0] == t[0];
    assert s != [] && !IsWhitespace(s[0]) ==> t == s;
    r
  }

  /** `r` is `s` with a run of whitespace cut from its start and one from its end. */
  ghost predicate StrippedOf(r: string, s: string) {
    exists i | 0 <= i <= |s| - |r| :: r == s[i..i + |r|] && AllWhitespace(s[..i]) && AllWhitespace(s[i + |r|..])
  }

  /** `s.trim()` is `s` with exactly its leading and its trailing whitespace cut off. */
  lemma TrimRemovesEnds(s: string)
    ensures StrippedOf(Trim(s), s)
  {
    var t := TrimStart(s);
    assert Trim(s) == TrimEnd(t);
    InfixBetweenWhitespace(s, |s| - |t|, Trim(s));
  }

  /** `r`, a prefix of `s[i..]` followed by whitespace only, sits between two whitespace runs of `s`. */
  lemma InfixBetweenWhitespace(s: string, i: int, r: string)
    requires 0 <= i <= |s| && AllWhitespace(s[..i])
    requires |r| <= |s| - i && r == s[i..][..|r|] && AllWhitespace(s[i..][|r|..])
    ensures StrippedOf(r, s)
  {
    assert s[i..][|r|..] == s[i + |r|..];
    assert s[i..][..|r|] == s[i..i + |r|];
  }

  lemma TrimEmptyIff(s: string, t: string, r: string)
    requires t == TrimStart(s) && r == TrimEnd(t)
    ensures r == [] <==> AllWhitespace(s)
  {
    if r == [] {
      assert AllWhitespace(t[0..]);
      assert t == [];
      assert s[..|s|] == s;
    }
  }

  // ---------------------------------------------------------------------------
  // Array.prototype.join

  /** `parts.join(separator)`. */
  function Join(parts: seq<string>, separator: string): (s: string)
    ensures parts == [] ==> s == ""
    ensures |parts| == 1 ==> s == parts[0]
  {
    if parts == [] then ""
    else if |parts| == 1 then parts[0]
    else parts[0] + separator + Join(parts[1..], separator)
  }
}
