/** The two string operations the writer relies on: `key in s` and `s.rfind(c)`. */
module Strings {

  /** `key` occurs in `s` starting at index `i`. */
  predicate OccursAt(key: string, s: string, i: nat)
  {
    i + |key| <= |s| && s[i..i + |key|] == key
  }

  /** `key` occurs in `s` at some position. */
  ghost predicate IsSubstring(key: string, s: string)
  {
    exists i: nat :: OccursAt(key, s, i)
  }

  /** Python's `key in s` on strings: substring containment. */
  function Contains(s: string, key: string): (r: bool)
    ensures r <==> IsSubstring(key, s)
    decreases |s|
  {
    if |key| > |s| then false
    else if s[..|key|] == key then
      assert OccursAt(key, s, 0);
      true
    else
      ContainsStep(s, key);
      Contains(s[1..], key)
  }

  /** A substring of `s` that is not a prefix of `s` is a substring of `s[1..]`, and conversely. */
  lemma ContainsStep(s: string, key: string)
    requires |key| <= |s| && s[..|key|] != key
    ensures IsSubstring(key, s) <==> IsSubstring(key, s[1..])
  {
    if IsSubstring(key, s) {
      var i: nat :| OccursAt(key, s, i);
      assert i != 0;
      assert OccursAt(key, s[1..], i - 1) by {
        assert s[1..][i - 1..i - 1 + |key|] == s[i..i + |key|];
      }
    }
    if IsSubstring(key, s[1..]) {
      var i: nat :| OccursAt(key, s[1..], i);
      assert OccursAt(key, s, i + 1) by {
        assert s[1..][i..i + |key|] == s[i + 1..i + 1 + |key|];
      }
    }
  }

  /** Python's `s.rfind(c)`: the index of the last `c` in `s`, or -1 when there is none. */
  function RFind(s: string, c: char): (r: int)
    ensures -1 <= r < |s|
    ensures r == -1 <==> c !in s
    ensures r >= 0 ==> s[r] == c && c !in s[r + 1..]
  {
    if s == [] then -1
    else if s[|s| - 1] == c then |s| - 1
    else
      var r := RFind(s[..|s| - 1], c);
      assert s == s[..|s| - 1] + [s[|s| - 1]];
      assert r >= 0 ==> s[r + 1..] == s[..|s| - 1][r + 1..] + [s[|s| - 1]];
      r
  }
}
