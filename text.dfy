/** String operations the recommenders rely on: Python's `str.lower`, the `in`
    substring test and `str.replace` with a one-character pattern. Strings are
    sequences of characters; lower-casing is ASCII case folding only. */
module Text {

  predicate IsUpper(c: char) {
    'A' <= c <= 'Z'
  }

  function LowerChar(c: char): char {
    if IsUpper(c) then (c as int - 'A' as int + 'a' as int) as char else c
  }

  /** `s.lower()`: every upper-case letter becomes its lower-case counterpart and
      every other character is kept. */
  function Lower(s: string): (r: string)
    ensures |r| == |s|
    ensures forall i :: 0 <= i < |r| ==> !IsUpper(r[i])
    ensures forall i :: 0 <= i < |s| && !IsUpper(s[i]) ==> r[i] == s[i]
    ensures forall i :: 0 <= i < |s| && IsUpper(s[i]) ==> r[i] as int == s[i] as int + 32
  {
    if s == [] then [] else [LowerChar(s[0])] + Lower(s[1..])
  }

  /** Python's `needle in hay` for strings: `needle` occurs as a contiguous block. */
  predicate IsSubstring(needle: string, hay: string) {
    exists i | 0 <= i <= |hay| - |needle| :: OccursAt(needle, hay, i)
  }

  /** `needle` starts at position `i` of `hay`. */
  predicate OccursAt(needle: string, hay: string, i: int) {
    0 <= i <= |hay| - |needle| && hay[i..i + |needle|] == needle
  }

  /** The empty string occurs in every string. */
  lemma EmptyIsSubstring(hay: string)
    ensures IsSubstring("", hay)
  {
    assert OccursAt("", hay, 0);
  }

  /** An occurrence in the tail of a string is an occurrence in the string. */
  lemma SubstringOfTail(needle: string, hay: string)
    requires hay != []
    ensures IsSubstring(needle, hay[1..]) ==> IsSubstring(needle, hay)
  {
    forall i | OccursAt(needle, hay[1..], i)
      ensures OccursAt(needle, hay, i + 1)
    {
      assert hay[1..][i..i + |needle|] == hay[i + 1..i + 1 + |needle|];
    }
  }

  /** Number of occurrences of `c` in `s`. */
  function Count(s: string, c: char): nat {
    if s == [] then 0 else (if s[0] == c then 1 else 0) + Count(s[1..], c)
  }

  /** `s.replace(c, t)` for a one-character pattern `c`: each occurrence of `c`
      is replaced by `t`, all other characters stay in place. */
  function ReplaceChar(s: string, c: char, t: string): (r: string)
    ensures |r| == |s| + Count(s, c) * (|t| - 1)
    ensures c !in t ==> c !in r
  {
    if s == [] then []
    else (if s[0] == c then t else [s[0]]) + ReplaceChar(s[1..], c, t)
  }

  /** With a one-character replacement the result is aligned with the input:
      position `i` holds the replacement exactly where the input held `c`. */
  lemma {:induction false} ReplaceCharPointwise(s: string, c: char, d: char)
    ensures |ReplaceChar(s, c, [d])| == |s|
    ensures forall i :: 0 <= i < |s| ==>
      ReplaceChar(s, c, [d])[i] == (if s[i] == c then d else s[i])
  {
    if s != [] {
      ReplaceCharPointwise(s[1..], c, d);
      var r := ReplaceChar(s, c, [d]);
      assert r == [if s[0] == c then d else s[0]] + ReplaceChar(s[1..], c, [d]);
      forall i | 0 <= i < |s|
        ensures r[i] == (if s[i] == c then d else s[i])
      {
        if i > 0 { assert s[i] == s[1..][i - 1]; }
      }
    }
  }
}
