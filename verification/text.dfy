/** The Python string operations the feed script relies on, over `string` (a sequence of code points). */
module Text {

  /** Python's `s.startswith(prefix)`. */
  predicate StartsWith(s: string, prefix: string) {
    |prefix| <= |s| && s[..|prefix|] == prefix
  }

  /** `needle` occurs in `s` beginning at index `i`. */
  predicate OccursAt(s: string, needle: string, i: int) {
    0 <= i && i + |needle| <= |s| && s[i..i + |needle|] == needle
  }

  /** Python's `needle in s`. */
  function Contains(s: string, needle: string): (b: bool)
    ensures b <==> exists i :: OccursAt(s, needle, i)
  {
    ContainsFrom(s, needle, 0)
  }

  /** Left-to-right search for `needle` at index `k` or later. */
  function ContainsFrom(s: string, needle: string, k: nat): (b: bool)
    ensures b <==> exists i :: k <= i && OccursAt(s, needle, i)
    decreases |s| + 1 - k
  {
    if k + |needle| > |s| then false
    else if s[k..k + |needle|] == needle then assert OccursAt(s, needle, k); true
    else ContainsFrom(s, needle, k + 1)
  }

  /** A run of `n` copies of `c`. */
  function Repeat(c: char, n: nat): (r: string)
    ensures |r| == n && forall i :: 0 <= i < n ==> r[i] == c
  {
    seq(n, _ => c)
  }

  /**
   * Python's `s.lstrip(c)` for one character `c`: the result is what is left
   * after every leading `c` is removed, so `s` is a run of `c` followed by it
   * and it does not itself begin with `c`.
   */
  function LStrip(s: string, c: char): (r: string)
    ensures |r| <= |s|
    ensures s == Repeat(c, |s| - |r|) + r
    ensures r == [] || r[0] != c
  {
    if s != [] && s[0] == c then
      var r := LStrip(s[1..], c);
      assert s == [c] + s[1..];
      assert Repeat(c, |s| - |r|) == [c] + Repeat(c, |s| - 1 - |r|);
      r
    else
      assert Repeat(c, 0) == [];
      s
  }
}
