/**
 Text operations used by the product search: lowercasing and substring
 search (`String.prototype.toLowerCase` and `String.prototype.includes`).
 Lowercasing is modelled on ASCII letters only.
 */
module Text {

  predicate IsUpper(c: char)
  {
    'A' <= c <= 'Z'
  }

  /** Lowercase one character: ASCII capitals move to the small letters,
      every other character is left alone. */
  function LowerChar(c: char): (r: char)
    ensures !IsUpper(r)
    ensures IsUpper(c) ==> r as int == c as int + 32
    ensures !IsUpper(c) ==> r == c
  {
    if IsUpper(c) then (c as int + 32) as char else c
  }

  /** `toLowerCase` on a whole string. */
  function Lower(s: string): (r: string)
    ensures |r| == |s|
    ensures forall i :: 0 <= i < |s| ==> r[i] == LowerChar(s[i])
  {
    seq(|s|, i requires 0 <= i < |s| => LowerChar(s[i]))
  }

  /* No character of s is an ASCII capital. */
  ghost predicate IsLowerCase(s: string)
  {
    forall i :: 0 <= i < |s| ==> !IsUpper(s[i])
  }

  /** Lowercasing keeps the length, leaves no capital behind, changes nothing
      in a string that has no capital, and so is idempotent. */
  lemma LowerProperties(s: string)
    ensures |Lower(s)| == |s|
    ensures IsLowerCase(Lower(s))
    ensures IsLowerCase(s) ==> Lower(s) == s
    ensures Lower(Lower(s)) == Lower(s)
  {
  }

  /* a and b differ at most in the case of ASCII letters. */
  ghost predicate SameIgnoringCase(a: string, b: string)
  {
    && |a| == |b|
    && forall i :: 0 <= i < |a| ==>
         || a[i] == b[i]
         || (IsUpper(a[i]) && b[i] as int == a[i] as int + 32)
         || (IsUpper(b[i]) && a[i] as int == b[i] as int + 32)
  }

  /** Strings equal up to letter case have the same lowercase form. */
  lemma LowerIgnoresCase(a: string, b: string)
    requires SameIgnoringCase(a, b)
    ensures Lower(a) == Lower(b)
  {
    forall i | 0 <= i < |a|
      ensures Lower(a)[i] == Lower(b)[i]
    {
    }
  }

  /* needle occurs in hay starting at position i. */
  ghost predicate OccursAt(hay: string, needle: string, i: int)
  {
    0 <= i && i + |needle| <= |hay| && hay[i..i + |needle|] == needle
  }

  /** needle is a contiguous substring of hay. */
  ghost predicate Contains(hay: string, needle: string)
  {
    exists i :: OccursAt(hay, needle, i)
  }

  /* An occurrence in the tail of hay is an occurrence in hay one place later. */
  lemma OccursInTail(hay: string, needle: string, i: int)
    requires |hay| > 0 && 0 <= i
    ensures OccursAt(hay[1..], needle, i) <==> OccursAt(hay, needle, i + 1)
  {
    if i + |needle| <= |hay| - 1 {
      assert hay[1..][i..i + |needle|] == hay[i + 1..i + 1 + |needle|];
    }
  }

  /** `includes`: scan hay from the front for an occurrence of needle. */
  function Includes(hay: string, needle: string): (r: bool)
    ensures r <==> Contains(hay, needle)
    decreases |hay|
  {
    if |needle| > |hay| then
      assert forall i :: !OccursAt(hay, needle, i);
      false
    else if hay[..|needle|] == needle then
      assert OccursAt(hay, needle, 0);
      true
    else
      var rest := Includes(hay[1..], needle);
      assert rest <==> Contains(hay, needle) by {
        if rest {
          var i :| OccursAt(hay[1..], needle, i);
          OccursInTail(hay, needle, i);
        }
        if Contains(hay, needle) {
          var i :| OccursAt(hay, needle, i);
          assert i != 0;
          OccursInTail(hay, needle, i - 1);
        }
      }
      rest
  }

  /** The empty string occurs in every string. */
  lemma EmptyIsEverywhere(hay: string)
    ensures Includes(hay, "")
  {
    assert OccursAt(hay, "", 0);
  }
}
