/** The string operations the search criterion relies on: lower-casing and substring containment. */
module Text {

  /** Lower-cases one ASCII letter and leaves every other character unchanged. */
  function LowerChar(c: char): char {
    if 'A' <= c <= 'Z' then (c as int + 32) as char else c
  }

  /** Upper-cases one ASCII letter and leaves every other character unchanged. */
  function UpperChar(c: char): char {
    if 'a' <= c <= 'z' then (c as int - 32) as char else c
  }

  /** Lower-casing, on the ASCII letters. */
  function Lower(s: string): string {
    seq(|s|, i requires 0 <= i < |s| => LowerChar(s[i]))
  }

  /** Upper-casing, on the ASCII letters. */
  function Upper(s: string): string {
    seq(|s|, i requires 0 <= i < |s| => UpperChar(s[i]))
  }

  /** Substring containment: `needle` occurs as a contiguous run of `hay`. */
  predicate Contains(hay: string, needle: string) {
    exists i :: 0 <= i <= |hay| && needle <= hay[i..]
  }

  /** The lower-cased term occurs in the lower-cased field. */
  predicate CaseInsensitiveIn(term: string, field: string) {
    Contains(Lower(field), Lower(term))
  }

  /** Every string contains the empty string. */
  lemma EmptyIsContained(hay: string)
    ensures Contains(hay, "")
  {
    assert "" <= hay[0..];
  }

  /** Lower-casing is idempotent. */
  lemma LowerIdempotent(s: string)
    ensures Lower(Lower(s)) == Lower(s)
  {
  }

  /** Lower-casing forgets what upper-casing did: only the letters' case differs between `s` and `Upper(s)`. */
  lemma LowerOfUpper(s: string)
    ensures Lower(Upper(s)) == Lower(s)
  {
    assert forall i :: 0 <= i < |s| ==> LowerChar(UpperChar(s[i])) == LowerChar(s[i]);
  }

  /** If `needle` is contained, so is every prefix of it: a shorter search term matches at least as much. */
  lemma PrefixOfContained(hay: string, needle: string, shorter: string)
    requires Contains(hay, needle) && shorter <= needle
    ensures Contains(hay, shorter)
  {
    var i :| 0 <= i <= |hay| && needle <= hay[i..];
    assert shorter <= hay[i..];
  }

  /** Case-insensitive containment does not see the case of the term. */
  lemma CaseInsensitiveInIgnoresCase(term: string, field: string)
    ensures CaseInsensitiveIn(Upper(term), field) == CaseInsensitiveIn(term, field)
    ensures CaseInsensitiveIn(Lower(term), field) == CaseInsensitiveIn(term, field)
    ensures CaseInsensitiveIn(term, Upper(field)) == CaseInsensitiveIn(term, field)
  {
    LowerOfUpper(term);
    LowerIdempotent(term);
    LowerOfUpper(field);
  }
}
