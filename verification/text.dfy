/** String helpers the pages and the page gate rely on: ASCII lower-casing
    (toLowerCase), the prefix test (startsWith) and substring search
    (includes). Only ASCII letters are case-folded. */
module Text {

  predicate IsUpper(c: char)
  {
    'A' <= c <= 'Z'
  }

  /** Lower-cases one ASCII letter; every other character is kept. */
  function LowerChar(c: char): (d: char)
    ensures IsUpper(c) ==> d as int == c as int + 32
    ensures !IsUpper(c) ==> d == c
    ensures !IsUpper(d)
  {
    if IsUpper(c) then (c as int + 32) as char else c
  }

  /** Lower-cases every character of s. */
  function Lower(s: string): (r: string)
    ensures |r| == |s|
    ensures forall i :: 0 <= i < |s| ==> r[i] == LowerChar(s[i])
  {
    seq(|s|, i requires 0 <= i < |s| => LowerChar(s[i]))
  }

  /** Lower-casing leaves no upper-case letter, so doing it twice is doing it once. */
  lemma LowerIdempotent(s: string)
    ensures forall i :: 0 <= i < |s| ==> !IsUpper(Lower(s)[i])
    ensures Lower(Lower(s)) == Lower(s)
  {
  }

  /** s begins with prefix. */
  predicate StartsWith(s: string, prefix: string)
  {
    |prefix| <= |s| && s[..|prefix|] == prefix
  }

  /** needle occurs in haystack at offset i. */
  predicate OccursAt(haystack: string, needle: string, i: int)
  {
    0 <= i && i + |needle| <= |haystack| && haystack[i..i + |needle|] == needle
  }

  /** Substring search, scanning the offsets from left to right: true iff the
      needle occurs at some offset. The empty needle occurs everywhere. */
  function Includes(haystack: string, needle: string): (r: bool)
    ensures r <==> exists i :: OccursAt(haystack, needle, i)
    decreases |haystack|
  {
    if |needle| > |haystack| then
      false
    else if haystack[..|needle|] == needle then
      assert OccursAt(haystack, needle, 0);
      true
    else
      var rest := Includes(haystack[1..], needle);
      ShiftOccurrence(haystack, needle);
      rest
  }

  /** An occurrence past offset 0 is an occurrence in the tail, one place earlier. */
  lemma ShiftOccurrence(haystack: string, needle: string)
    requires |haystack| >= 1 && !OccursAt(haystack, needle, 0)
    ensures (exists i :: OccursAt(haystack, needle, i)) <==> (exists i :: OccursAt(haystack[1..], needle, i))
  {
    var tail := haystack[1..];
    if i :| OccursAt(haystack, needle, i) {
      assert i >= 1;
      assert tail[i - 1..i - 1 + |needle|] == haystack[i..i + |needle|];
      assert OccursAt(tail, needle, i - 1);
    }
    if j :| OccursAt(tail, needle, j) {
      assert haystack[j + 1..j + 1 + |needle|] == tail[j..j + |needle|];
      assert OccursAt(haystack, needle, j + 1);
    }
  }

  /** Every string includes the empty string. */
  lemma IncludesEmpty(haystack: string)
    ensures Includes(haystack, "")
  {
  }
}
