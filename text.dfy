/**
 * The two string operations the classifier relies on: ASCII lower-casing
 * (`toLowerCase` on ASCII text) and substring search (`includes`).
 */
module Text {

  /** Lower-cases one ASCII letter; every other character is left alone. */
  function LowerChar(c: char): (d: char)
    ensures !('A' <= d <= 'Z')
    ensures !('A' <= c <= 'Z') ==> d == c
  {
    if 'A' <= c <= 'Z' then (c as int + 32) as char else c
  }

  /** ASCII lower-casing of a whole string, character by character. */
  function Lower(s: string): (r: string)
    ensures |r| == |s|
    ensures forall i :: 0 <= i < |s| ==> r[i] == LowerChar(s[i])
  {
    if s == [] then [] else [LowerChar(s[0])] + Lower(s[1..])
  }

  /** Lower-casing a lower-cased string changes nothing. */
  lemma LowerIdempotent(s: string)
    ensures Lower(Lower(s)) == Lower(s)
  {
    var once := Lower(s);
    var twice := Lower(once);
    forall i | 0 <= i < |s|
      ensures twice[i] == once[i]
    {
      assert !('A' <= once[i] <= 'Z');
    }
  }

  /** `pat` occurs in `s` starting at index `i`. */
  predicate OccursAt(pat: string, s: string, i: int)
  {
    0 <= i && i + |pat| <= |s| && s[i..i + |pat|] == pat
  }

  /** The reference meaning of substring containment: an occurrence at some index. */
  ghost predicate Contains(s: string, pat: string)
  {
    exists i :: OccursAt(pat, s, i)
  }

  /** Substring search, scanning `s` from the left. */
  function Includes(s: string, pat: string): bool
    decreases |s|
  {
    if |pat| > |s| then false
    else if s[..|pat|] == pat then true
    else Includes(s[1..], pat)
  }

  /** `Includes` holds exactly when the pattern occurs at some index. */
  lemma {:induction false} IncludesIff(s: string, pat: string)
    ensures Includes(s, pat) <==> Contains(s, pat)
    decreases |s|
  {
    if |pat| > |s| {
      assert forall i :: !OccursAt(pat, s, i);
    } else if s[..|pat|] == pat {
      assert OccursAt(pat, s, 0);
    } else {
      IncludesIff(s[1..], pat);
      forall i | OccursAt(pat, s[1..], i)
        ensures OccursAt(pat, s, i + 1)
      {
        assert s[i + 1..i + 1 + |pat|] == s[1..][i..i + |pat|];
      }
      forall i | OccursAt(pat, s, i)
        ensures OccursAt(pat, s[1..], i - 1)
      {
        assert i != 0;
        assert s[1..][i - 1..i - 1 + |pat|] == s[i..i + |pat|];
      }
    }
  }
}
