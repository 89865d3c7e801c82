/**
 String helpers shared by the pages: the ASCII reading of JavaScript's `\s`,
 `toLowerCase`, `trim` and `includes`.

 Strings are `seq<char>`. Only the ASCII part of each JavaScript operation is
 modelled: whitespace is space, tab, line feed, vertical tab, form feed and
 carriage return, and lowering maps `A`..`Z` to `a`..`z` and leaves every other
 character alone.
 */
module Text {

  /** The ASCII characters matched by the regular-expression class `\s`. */
  predicate IsWhitespace(c: char) {
    c == ' ' || c == '\t' || c == '\n' || c == '\U{B}' || c == '\U{C}' || c == '\r'
  }

  predicate IsUpper(c: char) {
    'A' <= c <= 'Z'
  }

  function LowerChar(c: char): (r: char)
    ensures !IsUpper(r)
    ensures IsWhitespace(r) <==> IsWhitespace(c)
    ensures IsUpper(c) ==> r as int == c as int + 32
    ensures !IsUpper(c) ==> r == c
  {
    if IsUpper(c) then (c as int + 32) as char else c
  }

  /** `s.toLowerCase()` over ASCII. */
  function Lower(s: string): (r: string)
    ensures |r| == |s|
    ensures forall i :: 0 <= i < |s| ==> r[i] == LowerChar(s[i])
  {
    seq(|s|, i requires 0 <= i < |s| => LowerChar(s[i]))
  }

  lemma LowerIdempotent(s: string)
    ensures Lower(Lower(s)) == Lower(s)
  {
  }

  lemma LowerAppend(a: string, b: string)
    ensures Lower(a + b) == Lower(a) + Lower(b)
  {
  }

  predicate AllWhitespace(s: string) {
    forall i :: 0 <= i < |s| ==> IsWhitespace(s[i])
  }

  predicate NoWhitespace(s: string) {
    forall i :: 0 <= i < |s| ==> !IsWhitespace(s[i])
  }

  /** Drops the leading whitespace of `s`. */
  function TrimStart(s: string): (r: string)
    ensures r == [] || !IsWhitespace(r[0])
  {
    if |s| > 0 && IsWhitespace(s[0]) then TrimStart(s[1..]) else s
  }

  /** Drops the trailing whitespace of `s`. */
  function TrimEnd(s: string): (r: string)
    ensures r == [] || !IsWhitespace(r[|r| - 1])
  {
    if |s| > 0 && IsWhitespace(s[|s| - 1]) then TrimEnd(s[..|s| - 1]) else s
  }

  /** `s.trim()`: leading and trailing whitespace removed. */
  function Trim(s: string): string {
    TrimEnd(TrimStart(s))
  }

  lemma {:induction false} TrimStartEmptyIff(s: string)
    ensures TrimStart(s) == [] <==> AllWhitespace(s)
  {
    if |s| > 0 && IsWhitespace(s[0]) {
      TrimStartEmptyIff(s[1..]);
      assert AllWhitespace(s) <==> AllWhitespace(s[1..]) by {
        if AllWhitespace(s[1..]) {
          forall i | 0 < i < |s|
            ensures IsWhitespace(s[i])
          {
            assert s[i] == s[1..][i - 1];
          }
        }
      }
    }
  }

  lemma {:induction false} TrimEndEmptyIff(s: string)
    ensures TrimEnd(s) == [] <==> AllWhitespace(s)
  {
    if |s| > 0 && IsWhitespace(s[|s| - 1]) {
      var init := s[..|s| - 1];
      TrimEndEmptyIff(init);
      assert AllWhitespace(s) <==> AllWhitespace(init) by {
        if AllWhitespace(init) {
          forall i | 0 <= i < |s| - 1
            ensures IsWhitespace(s[i])
          {
            assert s[i] == init[i];
          }
        }
      }
    }
  }

  /** Regrouping a concatenation, stated once so that proofs about strings can cite it. */
  lemma AppendAssoc(a: string, b: string, c: string)
    ensures a + (b + c) == (a + b) + c
  {
  }

  /** `s.trim()` is empty exactly for the strings made only of whitespace. */
  lemma TrimEmptyIffAllWhitespace(s: string)
    ensures Trim(s) == [] <==> AllWhitespace(s)
  {
    var t := TrimStart(s);
    TrimStartEmptyIff(s);
    TrimEndEmptyIff(t);
  }

  /** `!s.trim()`: nothing but whitespace, the empty string included. */
  function Blank(s: string): (b: bool)
    ensures b <==> AllWhitespace(s)
  {
    TrimEmptyIffAllWhitespace(s);
    Trim(s) == []
  }

  /** The UTF-16 code units of one character: two for a character above U+FFFF, one otherwise. */
  function CodeUnits(c: char): nat {
    if c as int <= 0xFFFF then 1 else 2
  }

  /** Every character lies in the Basic Multilingual Plane, so each is one code unit. */
  predicate InBasicPlane(s: string) {
    forall i :: 0 <= i < |s| ==> s[i] as int <= 0xFFFF
  }

  /**
   `s.length`, which counts UTF-16 code units: never fewer than the characters,
   never more than twice as many, and as many exactly when no character lies
   above U+FFFF.
   */
  function Utf16Length(s: string): (n: nat)
    ensures |s| <= n <= 2 * |s|
    ensures n == 0 <==> s == []
    ensures n == |s| <==> InBasicPlane(s)
  {
    if s == [] then 0
    else
      var n := CodeUnits(s[0]) + Utf16Length(s[1..]);
      assert InBasicPlane(s) <==> s[0] as int <= 0xFFFF && InBasicPlane(s[1..]) by {
        assert forall i :: 0 < i < |s| ==> s[i] == s[1..][i - 1];
      }
      n
  }

  /** `s.includes(sub)`: `sub` occurs as a contiguous block of `s`. */
  predicate Contains(s: string, sub: string) {
    exists i | 0 <= i <= |s| - |sub| :: OccursAt(s, sub, i)
  }

  predicate OccursAt(s: string, sub: string, i: int) {
    0 <= i && i + |sub| <= |s| && s[i..i + |sub|] == sub
  }

  lemma ContainsEmpty(s: string)
    ensures Contains(s, [])
  {
    assert OccursAt(s, [], 0);
  }
}
