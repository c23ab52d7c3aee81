/**
  ASCII case mapping, standing for JavaScript's `String.prototype.toLowerCase`
  on the header names the translator compares against "user-agent".
 */
module Ascii {
  import Seqs

  predicate IsUpper(c: char) { 'A' <= c <= 'Z' }

  predicate IsLower(c: char) { 'a' <= c <= 'z' }

  /** Lower-cases an ASCII capital letter and leaves every other character alone. */
  function LowerChar(c: char): (d: char)
    ensures IsUpper(c) ==> IsLower(d) && d as int == c as int + 32
    ensures !IsUpper(c) ==> d == c
  {
    if IsUpper(c) then (c as int + 32) as char else c
  }

  /** Upper-cases an ASCII small letter and leaves every other character alone. */
  function UpperChar(c: char): (d: char)
    ensures IsLower(c) ==> IsUpper(d) && d as int == c as int - 32
    ensures !IsLower(c) ==> d == c
  {
    if IsLower(c) then (c as int - 32) as char else c
  }

  /** `s` with every ASCII capital letter lower-cased; the length never changes. */
  function ToLower(s: string): (r: string)
    ensures |r| == |s|
    ensures forall i :: 0 <= i < |s| ==> r[i] == LowerChar(s[i])
  {
    Seqs.Map(LowerChar, s)
  }

  /** A character lower-cases to a character that lower-casing fixes exactly when it is that character or its capital. */
  lemma LowerCharIs(c: char, d: char)
    requires LowerChar(d) == d
    ensures LowerChar(c) == d <==> c == d || c == UpperChar(d)
  {
  }

  /**
    Lower-casing `s` gives `t` (a string with no capital letters) exactly when
    `s` spells `t` with any mix of upper and lower case: a case-insensitive
    comparison.
   */
  lemma {:induction false} ToLowerEqualsIff(s: string, t: string)
    requires forall i :: 0 <= i < |t| ==> LowerChar(t[i]) == t[i]
    ensures ToLower(s) == t <==>
      |s| == |t| && forall i :: 0 <= i < |s| ==> s[i] == t[i] || s[i] == UpperChar(t[i])
  {
    if |s| == |t| {
      if ToLower(s) == t {
        forall i | 0 <= i < |s| ensures s[i] == t[i] || s[i] == UpperChar(t[i]) {
          LowerCharIs(s[i], t[i]);
        }
      }
      if forall i :: 0 <= i < |s| ==> s[i] == t[i] || s[i] == UpperChar(t[i]) {
        forall i | 0 <= i < |s| ensures ToLower(s)[i] == t[i] {
          LowerCharIs(s[i], t[i]);
        }
      }
    }
  }
}
