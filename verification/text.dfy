/**
 * String helpers the handlers rely on: ASCII case folding (`toLowerCase`,
 * `toUpperCase`) and the local part of an e-mail address
 * (`email.split('@')[0]`).
 */
module Text {

  predicate IsUpperAscii(c: char) { 'A' <= c <= 'Z' }

  predicate IsLowerAscii(c: char) { 'a' <= c <= 'z' }

  function LowerChar(c: char): char {
    if IsUpperAscii(c) then (c as int + 32) as char else c
  }

  function UpperChar(c: char): char {
    if IsLowerAscii(c) then (c as int - 32) as char else c
  }

  /** `String.prototype.toLowerCase`, restricted to ASCII letters. */
  function ToLower(s: string): (r: string)
    ensures |r| == |s|
    ensures forall i :: 0 <= i < |r| ==> !IsUpperAscii(r[i])
    ensures forall i :: 0 <= i < |r| ==>
      r[i] == s[i] || (IsUpperAscii(s[i]) && r[i] as int == s[i] as int + 32)
  {
    seq(|s|, i requires 0 <= i < |s| => LowerChar(s[i]))
  }

  /** `String.prototype.toUpperCase`, restricted to ASCII letters. */
  function ToUpper(s: string): (r: string)
    ensures |r| == |s|
    ensures forall i :: 0 <= i < |r| ==> !IsLowerAscii(r[i])
    ensures forall i :: 0 <= i < |r| ==>
      r[i] == s[i] || (IsLowerAscii(s[i]) && r[i] as int == s[i] as int - 32)
  {
    seq(|s|, i requires 0 <= i < |s| => UpperChar(s[i]))
  }

  /** Two e-mail addresses are the same account when they agree after lower-casing. */
  predicate SameEmail(a: string, b: string) {
    ToLower(a) == ToLower(b)
  }

  /** Lower-casing twice is lower-casing once. */
  lemma ToLowerIdempotent(s: string)
    ensures ToLower(ToLower(s)) == ToLower(s)
  {
  }

  /** Upper-casing a language code twice is upper-casing it once. */
  lemma ToUpperIdempotent(s: string)
    ensures ToUpper(ToUpper(s)) == ToUpper(s)
  {
  }

  /** Upper-casing ignores the case the code was written in. */
  lemma ToUpperIgnoresCase(s: string)
    ensures ToUpper(ToLower(s)) == ToUpper(s)
  {
  }

  /** Any spelling that differs from an address only in letter case names the same account. */
  lemma CaseVariantsAreSameEmail(s: string)
    ensures SameEmail(s, ToUpper(s))
    ensures SameEmail(ToLower(s), s)
  {
    var u := ToUpper(s);
    forall i | 0 <= i < |s|
      ensures ToLower(u)[i] == ToLower(s)[i]
    {
      assert LowerChar(UpperChar(s[i])) == LowerChar(s[i]);
    }
    assert ToLower(u) == ToLower(s);
    ToLowerIdempotent(s);
  }

  /**
   * `s.split('@')[0]`: everything before the first '@', or all of `s`
   * when it holds no '@'.
   */
  function LocalPart(s: string): (r: string)
    ensures |r| <= |s| && r == s[..|r|]
    ensures '@' !in r
    ensures |r| < |s| ==> s[|r|] == '@'
  {
    if s == [] || s[0] == '@' then []
    else [s[0]] + LocalPart(s[1..])
  }

  /** The local part is determined by the position of the first '@'. */
  lemma {:induction false} LocalPartAtFirstAt(s: string, k: nat)
    requires k < |s| && s[k] == '@' && '@' !in s[..k]
    ensures LocalPart(s) == s[..k]
  {
    if k > 0 {
      assert s[1..][..k - 1] == s[..k][1..];
      LocalPartAtFirstAt(s[1..], k - 1);
    }
  }
}
