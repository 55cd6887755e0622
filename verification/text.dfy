/** The two string operations of Go's `strings` package the query resolver
    relies on: substring containment and lower-casing. */
module Text {

  /** `w` occurs in `s` starting at offset `i`. */
  predicate OccursAt(s: string, w: string, i: int) {
    0 <= i <= |s| - |w| && s[i..i + |w|] == w
  }

  /** `strings.Contains(s, w)`: `w` occurs in `s` at some offset. */
  predicate Contains(s: string, w: string) {
    exists i | 0 <= i <= |s| - |w| :: OccursAt(s, w, i)
  }

  /** An occurrence in a suffix is an occurrence in the whole. */
  lemma ContainsInSuffix(a: string, b: string, w: string)
    requires Contains(b, w)
    ensures Contains(a + b, w)
  {
    var i :| 0 <= i <= |b| - |w| && OccursAt(b, w, i);
    assert (a + b)[|a| + i..|a| + i + |w|] == w;
    assert OccursAt(a + b, w, |a| + i);
  }

  /** Every character of an occurring word is a character of the text. */
  lemma ContainedCharacter(s: string, w: string, k: int)
    requires Contains(s, w)
    requires 0 <= k < |w|
    ensures w[k] in s
  {
    var i :| 0 <= i <= |s| - |w| && OccursAt(s, w, i);
    assert s[i + k] == w[k];
  }

  /** A word without spaces that occurs in `" " + n + rest`, where `rest` is
      empty or starts with a space, occurs in `n` or in `rest`: it cannot
      cover either separating space. */
  lemma {:induction false} SpaceSeparated(n: string, rest: string, w: string)
    requires |w| > 0 && ' ' !in w
    requires rest == [] || rest[0] == ' '
    requires Contains([' '] + n + rest, w)
    ensures Contains(n, w) || Contains(rest, w)
  {
    var s := [' '] + n + rest;
    var i :| 0 <= i <= |s| - |w| && OccursAt(s, w, i);
    assert s[i] == w[0];
    assert i >= 1;
    if i + |w| <= 1 + |n| {
      assert forall k | 0 <= k < |w| :: n[i - 1 + k] == s[i + k] == w[k];
      assert n[i - 1..i - 1 + |w|] == w;
      assert OccursAt(n, w, i - 1);
    } else {
      assert |rest| > 0 && s[1 + |n|] == ' ';
      assert forall k | i <= k < i + |w| :: s[k] == w[k - i];
      assert i >= 1 + |n|;
      assert rest[i - 1 - |n|..i - 1 - |n| + |w|] == w;
      assert OccursAt(rest, w, i - 1 - |n|);
    }
  }

  /** The ASCII part of Go's `unicode.ToLower`. */
  function LowerChar(ch: char): char {
    if 'A' <= ch <= 'Z' then (ch as int + 32) as char else ch
  }

  predicate IsUpper(ch: char) {
    'A' <= ch <= 'Z'
  }

  /** `strings.ToLower`: an upper-case ASCII letter becomes the lower-case
      letter 32 code points above it, every other character is kept. */
  function Lower(s: string): (t: string)
    ensures |t| == |s|
    ensures forall i | 0 <= i < |t| :: !IsUpper(t[i])
    ensures forall i | 0 <= i < |t| :: !IsUpper(s[i]) ==> t[i] == s[i]
    ensures forall i | 0 <= i < |t| :: IsUpper(s[i]) ==> t[i] as int == s[i] as int + 32
  {
    seq(|s|, i requires 0 <= i < |s| => LowerChar(s[i]))
  }

  /** Lower-casing changes nothing in text that has no capitals. */
  lemma LowerWithoutCapitals(s: string)
    requires forall i | 0 <= i < |s| :: !IsUpper(s[i])
    ensures Lower(s) == s
  {
  }
}
