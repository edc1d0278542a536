/**
 * Text helpers shared by the knowledge base, the classifier and the router:
 * lower-casing, substring occurrence and the word characters of a regular
 * expression's word boundary.
 */
module Text {

  predicate IsUpper(c: char) { 'A' <= c <= 'Z' }

  /** One character of str.lower(), for the ASCII letters. */
  function LowerChar(c: char): (r: char)
    ensures !IsUpper(r)
    ensures IsUpper(c) ==> r as int == c as int + 32
    ensures !IsUpper(c) ==> r == c
  {
    if IsUpper(c) then (c as int + 32) as char else c
  }

  /** str.lower(): the same length, each upper-case letter replaced by its
      lower-case letter, and every other character kept where it was. */
  function Lower(s: string): (r: string)
    ensures |r| == |s|
    ensures forall i :: 0 <= i < |r| ==> !IsUpper(r[i])
    ensures forall i :: 0 <= i < |s| && !IsUpper(s[i]) ==> r[i] == s[i]
    ensures forall i :: 0 <= i < |s| && IsUpper(s[i]) ==> r[i] as int == s[i] as int + 32
  {
    seq(|s|, i requires 0 <= i < |s| => LowerChar(s[i]))
  }

  /** Lower-casing twice is lower-casing once. */
  lemma LowerIdempotent(s: string)
    ensures Lower(Lower(s)) == Lower(s)
  {
    var t := Lower(s);
    assert forall i :: 0 <= i < |t| ==> Lower(t)[i] == LowerChar(t[i]) == t[i];
  }

  /** Lower-casing works character by character, so it distributes over
      concatenation. */
  lemma LowerAppend(a: string, b: string)
    ensures Lower(a + b) == Lower(a) + Lower(b)
  {
  }

  /** The characters `\w` stands for in a regular expression (ASCII only). */
  predicate IsWordChar(c: char)
  {
    'a' <= c <= 'z' || 'A' <= c <= 'Z' || '0' <= c <= '9' || c == '_'
  }

  /** `s` occurs in `t` starting at index `i`. */
  predicate OccursAt(s: string, t: string, i: int)
  {
    0 <= i && i + |s| <= |t| && t[i..i + |s|] == s
  }

  /** Python's `s in t`. */
  predicate Contains(t: string, s: string)
  {
    exists i | 0 <= i <= |t| :: OccursAt(s, t, i)
  }

  /** `s` is absent from `t` when none of the positions holding its first
      character starts an occurrence of it. */
  lemma NotContains(t: string, s: string)
    requires |s| > 0
    requires forall i :: 0 <= i < |t| && t[i] == s[0] ==> !OccursAt(s, t, i)
    ensures !Contains(t, s)
  {
  }

  /** `s` does not start at `i` when one of its characters disagrees with the
      character of `t` it would cover. */
  lemma NotAt(t: string, s: string, i: nat, k: nat)
    requires k < |s| && i + |s| <= |t| && t[i + k] != s[k]
    ensures !OccursAt(s, t, i)
  {
  }
}
