/** Helpers shared by every module of the model: an optional value, decimal
    formatting of integers (what JavaScript's `toString` and template literals
    print for whole numbers) and a few string predicates. */
module Util {

  datatype Option<+T> = None | Some(value: T)

  predicate IsDigit(c: char) {
    '0' <= c <= '9'
  }

  predicate AllDigits(s: string) {
    forall i :: 0 <= i < |s| ==> IsDigit(s[i])
  }

  function DigitChar(d: nat): (c: char)
    requires d < 10
    ensures IsDigit(c) && (c as int) - ('0' as int) == d
  {
    (('0' as int) + d) as char
  }

  /** The decimal digits of `n`, most significant first, without leading zeros. */
  function NatToString(n: nat): (s: string)
    ensures 1 <= |s| && AllDigits(s)
    ensures |s| > 1 ==> s[0] != '0'
    decreases n
  {
    if n < 10 then [DigitChar(n)] else NatToString(n / 10) + [DigitChar(n % 10)]
  }

  /** The value of a string of decimal digits (the empty string reads as 0). */
  function DecimalValue(s: string): nat
    requires AllDigits(s)
  {
    if s == [] then 0
    else DecimalValue(s[..|s| - 1]) * 10 + ((s[|s| - 1] as int) - ('0' as int))
  }

  /** Reading back what NatToString printed gives the number again. */
  lemma {:induction false} DecimalRoundTrip(n: nat)
    ensures DecimalValue(NatToString(n)) == n
    decreases n
  {
    if n >= 10 {
      DecimalRoundTrip(n / 10);
      var s := NatToString(n);
      assert s[..|s| - 1] == NatToString(n / 10);
    }
  }

  /** Distinct numbers print as distinct strings. */
  lemma NatToStringInjective(a: nat, b: nat)
    requires a != b
    ensures NatToString(a) != NatToString(b)
  {
    DecimalRoundTrip(a);
    DecimalRoundTrip(b);
  }

  /** Decimal form of any integer, with a leading '-' for negative values. */
  function IntToString(n: int): (s: string)
    ensures n >= 0 ==> s == NatToString(n)
    ensures n < 0 ==> 2 <= |s| && s[0] == '-' && s[1..] == NatToString(-n)
  {
    if n < 0 then "-" + NatToString(-n) else NatToString(n)
  }

  /** Distinct integers print as distinct strings. */
  lemma IntToStringInjective(a: int, b: int)
    requires a != b
    ensures IntToString(a) != IntToString(b)
  {
    if a >= 0 && b >= 0 {
      NatToStringInjective(a, b);
    } else if a < 0 && b < 0 {
      NatToStringInjective(-a, -b);
      assert IntToString(a)[1..] != IntToString(b)[1..];
    } else if a < 0 {
      assert IntToString(a)[0] != IntToString(b)[0];
    } else {
      assert IntToString(a)[0] != IntToString(b)[0];
    }
  }

  predicate StartsWith(s: string, prefix: string) {
    |prefix| <= |s| && s[..|prefix|] == prefix
  }

  predicate EndsWith(s: string, suffix: string) {
    |suffix| <= |s| && s[|s| - |suffix|..] == suffix
  }

  predicate OccursAt(s: string, sub: string, i: int) {
    0 <= i <= |s| - |sub| && s[i..i + |sub|] == sub
  }

  /** `sub` occurs somewhere in `s` (JavaScript's `includes` on strings). */
  predicate Contains(s: string, sub: string) {
    exists i | 0 <= i <= |s| - |sub| :: OccursAt(s, sub, i)
  }

  /** JavaScript's `Array.prototype.join` with separator `sep`. */
  function Join(parts: seq<string>, sep: string): string {
    if |parts| == 0 then ""
    else if |parts| == 1 then parts[0]
    else parts[0] + sep + Join(parts[1..], sep)
  }

  /** The capital letters the model maps: Latin `A`-`Z`, Russian `А`-`Я` and `Ё`. */
  predicate IsUpperLetter(c: char) {
    'A' <= c <= 'Z' || '\U{0410}' <= c <= '\U{042F}' || c == '\U{0401}'
  }

  /** The small letters the model maps: Latin `a`-`z`, Russian `а`-`я` and `ё`. */
  predicate IsLowerLetter(c: char) {
    'a' <= c <= 'z' || '\U{0430}' <= c <= '\U{044F}' || c == '\U{0451}'
  }

  /** Lower-case mapping of the Latin and Russian Cyrillic letters: a capital
      becomes the small letter it pairs with; every other character is its
      own lower case. */
  function CharToLower(c: char): (r: char)
    ensures !IsUpperLetter(r)
    ensures IsUpperLetter(c) ==> IsLowerLetter(r) && CharToUpper(r) == c
    ensures !IsUpperLetter(c) ==> r == c
  {
    if 'A' <= c <= 'Z' then (c as int + 32) as char
    else if '\U{0410}' <= c <= '\U{042F}' then (c as int + 32) as char
    else if c == '\U{0401}' then '\U{0451}'
    else c
  }

  /** Upper-case mapping of the same letters. */
  function CharToUpper(c: char): (r: char)
    ensures !IsLowerLetter(r)
    ensures IsLowerLetter(c) ==> IsUpperLetter(r)
    ensures !IsLowerLetter(c) ==> r == c
  {
    if 'a' <= c <= 'z' then (c as int - 32) as char
    else if '\U{0430}' <= c <= '\U{044F}' then (c as int - 32) as char
    else if c == '\U{0451}' then '\U{0401}'
    else c
  }

  /** Each small letter becomes a capital that lower-cases back to it; the
      mirror of the pairing `CharToLower` states. */
  lemma SmallLetterPairs(c: char)
    requires IsLowerLetter(c)
    ensures CharToLower(CharToUpper(c)) == c
  {
    assert 'a' <= c <= 'z' ==> CharToLower(CharToUpper(c)) == c;
    assert '\U{0430}' <= c <= '\U{044F}' ==> CharToLower(CharToUpper(c)) == c;
  }

  /** `String.prototype.toLowerCase`, on the letters `CharToLower` maps: no
      capital is left, every other character is kept, and each capital is
      replaced by its small letter. */
  function ToLower(s: string): (r: string)
    ensures |r| == |s| && forall i :: 0 <= i < |s| ==> r[i] == CharToLower(s[i])
    ensures forall i :: 0 <= i < |r| ==> !IsUpperLetter(r[i])
    ensures forall i :: 0 <= i < |s| && !IsUpperLetter(s[i]) ==> r[i] == s[i]
  {
    seq(|s|, i requires 0 <= i < |s| => CharToLower(s[i]))
  }

  /** `String.prototype.toUpperCase`, on the letters `CharToUpper` maps. */
  function ToUpper(s: string): (r: string)
    ensures |r| == |s| && forall i :: 0 <= i < |s| ==> r[i] == CharToUpper(s[i])
    ensures forall i :: 0 <= i < |r| ==> !IsLowerLetter(r[i])
    ensures forall i :: 0 <= i < |s| && !IsLowerLetter(s[i]) ==> r[i] == s[i]
  {
    seq(|s|, i requires 0 <= i < |s| => CharToUpper(s[i]))
  }

  /** Lower-casing is insensitive to the case it starts from: lower-casing
      again changes nothing, and lower-casing an upper-cased text gives the
      lower case of the original. */
  lemma ToLowerIgnoresCase(s: string)
    ensures ToLower(ToLower(s)) == ToLower(s)
    ensures ToLower(ToUpper(s)) == ToLower(s)
  {
    assert forall i :: 0 <= i < |s| ==> CharToLower(CharToUpper(s[i])) == CharToLower(s[i]) by {
      forall i | 0 <= i < |s|
        ensures CharToLower(CharToUpper(s[i])) == CharToLower(s[i])
      {
        var c := s[i];
        if IsLowerLetter(c) {
          SmallLetterPairs(c);
        }
      }
    }
  }
}
