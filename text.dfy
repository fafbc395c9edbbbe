/**
 * Lower-casing of names and paths, as `String.toLowerCase` is used for
 * spawnpoint search names and module data-node keys.
 * Only the ASCII letters A-Z are mapped; other characters are kept.
 */
module Text {

  predicate IsUpper(c: char) {
    'A' <= c <= 'Z'
  }

  function LowerChar(c: char): (l: char)
    ensures !IsUpper(l)
    ensures !IsUpper(c) ==> l == c
    ensures IsUpper(c) ==> l as int - c as int == 'a' as int - 'A' as int
  {
    if IsUpper(c) then (c as int + ('a' as int - 'A' as int)) as char else c
  }

  function ToLower(s: string): (r: string)
    ensures |r| == |s|
    ensures forall i :: 0 <= i < |r| ==> r[i] == LowerChar(s[i])
  {
    seq(|s|, i requires 0 <= i < |s| => LowerChar(s[i]))
  }

  /** Two characters that are equal, or the upper- and lower-case forms of one ASCII letter. */
  predicate SameIgnoringCase(c: char, d: char) {
    var gap := 'a' as int - 'A' as int;
    c == d || (IsUpper(c) && d as int == c as int + gap) || (IsUpper(d) && c as int == d as int + gap)
  }

  /** Two strings that differ at most in the case of their letters, compared character by character. */
  predicate EqualIgnoringCase(p: string, q: string) {
    |p| == |q| && forall i :: 0 <= i < |p| ==> SameIgnoringCase(p[i], q[i])
  }

  /** A lower-cased string has no upper-case letter, and lower-casing it again changes nothing. */
  lemma ToLowerIdempotent(s: string)
    ensures forall i :: 0 <= i < |ToLower(s)| ==> !IsUpper(ToLower(s)[i])
    ensures ToLower(ToLower(s)) == ToLower(s)
  {
  }

  /** Lower-casing identifies exactly the strings equal up to case. */
  lemma ToLowerSameIffEqualIgnoringCase(p: string, q: string)
    ensures ToLower(p) == ToLower(q) <==> EqualIgnoringCase(p, q)
  {
    if ToLower(p) == ToLower(q) {
      forall i | 0 <= i < |p|
        ensures SameIgnoringCase(p[i], q[i])
      {
        assert ToLower(p)[i] == ToLower(q)[i];
      }
    }
    if EqualIgnoringCase(p, q) {
      forall i | 0 <= i < |p|
        ensures ToLower(p)[i] == ToLower(q)[i]
      {
        assert SameIgnoringCase(p[i], q[i]);
      }
    }
  }
}
