/** Case handling of e-mail addresses: Python's `str.lower()` on the ASCII range, and the
    case-insensitive `iexact` comparison the ORM offers. */
module Text {

  predicate IsUpper(c: char) {
    'A' <= c <= 'Z'
  }

  /** One character lower-cased; only ASCII capitals change. */
  function LowerChar(c: char): (d: char)
    ensures !IsUpper(d)
  {
    if IsUpper(c) then (c as int - 'A' as int + 'a' as int) as char else c
  }

  /** A string with no capital letter: what `Lower` leaves unchanged. */
  predicate IsLower(s: string) {
    forall i :: 0 <= i < |s| ==> !IsUpper(s[i])
  }

  /** `s.lower()`: the same length, every character lower-cased in place. */
  function Lower(s: string): (r: string)
    ensures |r| == |s|
    ensures forall i :: 0 <= i < |s| ==> r[i] == LowerChar(s[i])
    ensures IsLower(r)
  {
    if s == [] then [] else [LowerChar(s[0])] + Lower(s[1..])
  }

  /** A string that is already lower-case is its own lower-case form. */
  lemma LowerFixesLowercase(s: string)
    requires IsLower(s)
    ensures Lower(s) == s
  {
  }

  /** The ORM's `field__iexact=value` lookup. */
  predicate EqualsIgnoringCase(a: string, b: string) {
    Lower(a) == Lower(b)
  }
}
