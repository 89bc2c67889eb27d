/** Go's `strings.ToLower`, on the characters it is applied to here. */
module Strings {

  predicate IsUpper(c: char) {
    'A' <= c <= 'Z'
  }

  predicate IsLower(c: char) {
    'a' <= c <= 'z'
  }

  /** An ASCII capital becomes its small letter; every other ASCII character is kept. */
  function LowerChar(c: char): (r: char) {
    if IsUpper(c) then (c as int + 32) as char else c
  }

  /** `strings.ToLower(s)` for an ASCII string. */
  function ToLower(s: string): (r: string)
    ensures |r| == |s|
    ensures forall i :: 0 <= i < |s| ==> !IsUpper(r[i])
    ensures forall i :: 0 <= i < |s| ==> IsUpper(s[i]) ==> IsLower(r[i]) && r[i] as int == s[i] as int + 32
    ensures forall i :: 0 <= i < |s| ==> !IsUpper(s[i]) ==> r[i] == s[i]
  {
    seq(|s|, i requires 0 <= i < |s| => LowerChar(s[i]))
  }

  /** After lower-casing no capital letter is left, and nothing but capitals changed. */
  lemma LowerCharMeaning(c: char)
    ensures !IsUpper(LowerChar(c))
    ensures IsUpper(c) ==> IsLower(LowerChar(c)) && LowerChar(c) as int - 'a' as int == c as int - 'A' as int
    ensures !IsUpper(c) ==> LowerChar(c) == c
  {
  }

  /** Lower-casing loses nothing on strings that hold no small letters. */
  lemma ToLowerInjective(s: string, t: string)
    requires forall c :: c in s ==> !IsLower(c)
    requires forall c :: c in t ==> !IsLower(c)
    requires ToLower(s) == ToLower(t)
    ensures s == t
  {
    assert |s| == |t|;
    forall i | 0 <= i < |s| ensures s[i] == t[i] {
      assert LowerChar(s[i]) == LowerChar(t[i]);
      assert s[i] in s && t[i] in t;
    }
  }
}
