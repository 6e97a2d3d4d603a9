/**
 * The two string operations the catalog filter relies on, modelled over ASCII:
 * `toLowerCase` and `includes`.
 */
module Text {

  predicate IsAsciiUpper(c: char) {
    'A' <= c <= 'Z'
  }

  /** Lower-casing of one character: an ASCII capital becomes the matching lower-case letter, 32 code points up; everything else is kept. */
  function LowerChar(c: char): (r: char)
    ensures !IsAsciiUpper(r)
    ensures r == c || (IsAsciiUpper(c) && r as int == c as int + 32)
  {
    if IsAsciiUpper(c) then (c as int + 32) as char else c
  }

  /** `s.toLowerCase()`: lower-cases every character, keeping length and positions. */
  function ToLower(s: string): (r: string)
    ensures |r| == |s|
    ensures forall i :: 0 <= i < |s| ==> r[i] == LowerChar(s[i])
  {
    if s == [] then [] else [LowerChar(s[0])] + ToLower(s[1..])
  }

  /** Lower-casing twice is lower-casing once. */
  lemma ToLowerIdempotent(s: string)
    ensures ToLower(ToLower(s)) == ToLower(s)
  {
  }

  predicate IsPrefix(p: string, s: string) {
    |p| <= |s| && s[..|p|] == p
  }

  /**
   * Whether hay contains needle: tries the needle at every position of hay, left to right.
   * A needle that starts hay is found; one longer than hay never is.
   */
  function Includes(hay: string, needle: string): (b: bool)
    ensures IsPrefix(needle, hay) ==> b
    ensures b ==> |needle| <= |hay|
    decreases |hay|
  {
    IsPrefix(needle, hay) || (hay != [] && Includes(hay[1..], needle))
  }

  /** The needle is found in hay starting at position i (the reference meaning of `includes`). */
  ghost predicate OccursAt(hay: string, needle: string, i: int) {
    0 <= i && i + |needle| <= |hay| && hay[i..i + |needle|] == needle
  }

  /** `Includes` answers true exactly when the needle occurs somewhere in hay. */
  lemma {:induction false} IncludesIffOccurs(hay: string, needle: string)
    ensures Includes(hay, needle) <==> exists i :: OccursAt(hay, needle, i)
    decreases |hay|
  {
    if IsPrefix(needle, hay) {
      assert OccursAt(hay, needle, 0);
    } else if hay == [] {
    } else {
      IncludesIffOccurs(hay[1..], needle);
      if j :| OccursAt(hay[1..], needle, j) {
        assert hay[1..][j..j + |needle|] == hay[j + 1..j + 1 + |needle|];
        assert OccursAt(hay, needle, j + 1);
      }
      if i :| OccursAt(hay, needle, i) && i > 0 {
        assert hay[1..][i - 1..i - 1 + |needle|] == hay[i..i + |needle|];
        assert OccursAt(hay[1..], needle, i - 1);
      }
    }
  }

  /** The empty needle is found in every string, as `"abc".includes("")` is true. */
  lemma IncludesEmptyNeedle(hay: string)
    ensures Includes(hay, "")
  {
  }
}
