/** Python's `str` operations that the export step relies on: `in` on
    strings, `endswith` and `replace`. */
module Text {

  /** `pattern` occurs in `s` starting at index `i`. */
  predicate OccursAt(s: string, pattern: string, i: int)
  {
    0 <= i <= |s| - |pattern| && s[i..i + |pattern|] == pattern
  }

  /** `pattern in s`. The empty string is in every string, a longer one
      in none, and one of the same length only in itself. */
  function Contains(s: string, pattern: string): (r: bool)
    ensures pattern == [] ==> r
    ensures r ==> |pattern| <= |s|
    ensures |pattern| == |s| ==> (r <==> pattern == s)
  {
    assert pattern == [] || |pattern| == |s| ==> (OccursAt(s, pattern, 0) <==> s[..|pattern|] == pattern);
    exists i :: 0 <= i <= |s| - |pattern| && OccursAt(s, pattern, i)
  }

  /** `s.endswith(suffix)`. The empty suffix ends every string, and a
      suffix that ends `s` also occurs in it, with the same last
      character. */
  function EndsWith(s: string, suffix: string): (r: bool)
    ensures suffix == [] ==> r
    ensures r ==> Contains(s, suffix)
    ensures r && suffix != [] ==> s[|s| - 1] == suffix[|suffix| - 1]
  {
    assert |suffix| <= |s| && s[|s| - |suffix|..] == suffix ==> OccursAt(s, suffix, |s| - |suffix|);
    |suffix| <= |s| && s[|s| - |suffix|..] == suffix
  }

  /** `s.replace(pattern, replacement)`: every non-overlapping occurrence
      of `pattern`, scanning from the left, becomes `replacement`; an empty
      `pattern` inserts `replacement` before every character and at the
      end. */
  function Replace(s: string, pattern: string, replacement: string): (r: string)
    ensures pattern != [] && !Contains(s, pattern) ==> r == s
    decreases |s|
  {
    if pattern == [] then
      if s == [] then replacement else replacement + [s[0]] + Replace(s[1..], pattern, replacement)
    else if |pattern| <= |s| && s[..|pattern|] == pattern then
      assert OccursAt(s, pattern, 0);
      replacement + Replace(s[|pattern|..], pattern, replacement)
    else if s == [] then []
    else
      assert Contains(s[1..], pattern) ==> Contains(s, pattern) by {
        if Contains(s[1..], pattern) {
          var t := s[1..];
          var i :| 0 <= i <= |t| - |pattern| && OccursAt(t, pattern, i);
          assert t[i..i + |pattern|] == pattern;
          assert s[i + 1..i + 1 + |pattern|] == s[1..][i..i + |pattern|];
          assert OccursAt(s, pattern, i + 1);
        }
      }
      [s[0]] + Replace(s[1..], pattern, replacement)
  }

  /** A character in neither `s` nor `replacement` is not in the result,
      and a non-empty `s` stays non-empty under a non-empty replacement. */
  lemma {:induction false} ReplaceKeepsOut(s: string, pattern: string, replacement: string, c: char)
    requires c !in s && c !in replacement
    ensures c !in Replace(s, pattern, replacement)
    ensures s != [] && replacement != [] ==> Replace(s, pattern, replacement) != []
    decreases |s|
  {
    if s != [] {
      assert forall k :: 0 <= k < |s| - 1 ==> s[1..][k] == s[k + 1];
      assert c !in s[1..];
    }
    if pattern == [] {
      if s != [] {
        ReplaceKeepsOut(s[1..], pattern, replacement, c);
      }
    } else if |pattern| <= |s| && s[..|pattern|] == pattern {
      assert forall k :: 0 <= k < |s| - |pattern| ==> s[|pattern|..][k] == s[k + |pattern|];
      ReplaceKeepsOut(s[|pattern|..], pattern, replacement, c);
    } else if s != [] {
      ReplaceKeepsOut(s[1..], pattern, replacement, c);
    }
  }

  /** A name that is exactly the pattern becomes exactly the replacement. */
  lemma {:induction false} ReplaceWhole(pattern: string, replacement: string)
    requires pattern != []
    ensures Replace(pattern, pattern, replacement) == replacement
  {
    assert pattern[|pattern|..] == [];
  }
}
