/**
 * The string operations the handlers use: `startsWith`, `includes` and an ASCII
 * `toLowerCase`.
 */
module Strings {

  /** `s.startsWith(prefix)`. */
  predicate StartsWith(s: string, prefix: string) {
    |prefix| <= |s| && s[..|prefix|] == prefix
  }

  /** `sub` occurs in `s` at index `i`. */
  predicate OccursAt(s: string, sub: string, i: int) {
    0 <= i && i + |sub| <= |s| && s[i..i + |sub|] == sub
  }

  /** An occurrence of `a + b + c` is an occurrence of each part, one after the other. */
  lemma OccursInParts(s: string, a: string, b: string, c: string, i: int)
    requires OccursAt(s, a + b + c, i)
    ensures OccursAt(s, a, i) && OccursAt(s, b, i + |a|) && OccursAt(s, c, i + |a| + |b|)
  {
    var w := a + b + c;
    assert forall k :: 0 <= k < |w| ==> s[i + k] == w[k] by {
      forall k | 0 <= k < |w| ensures s[i + k] == w[k] {
        assert s[i..i + |w|][k] == s[i + k];
      }
    }
    assert s[i..i + |a|] == a by {
      forall k | 0 <= k < |a| ensures s[i..i + |a|][k] == a[k] { assert w[k] == a[k]; }
    }
    assert s[i + |a|..i + |a| + |b|] == b by {
      forall k | 0 <= k < |b| ensures s[i + |a|..i + |a| + |b|][k] == b[k] { assert w[|a| + k] == b[k]; }
    }
    assert s[i + |a| + |b|..i + |a| + |b| + |c|] == c by {
      forall k | 0 <= k < |c| ensures s[i + |a| + |b|..i + |a| + |b| + |c|][k] == c[k] {
        assert w[|a| + |b| + k] == c[k];
      }
    }
  }

  /** `s.includes(sub)`: searched by dropping one character at a time. */
  function Includes(s: string, sub: string): (r: bool)
    ensures r <==> exists i :: OccursAt(s, sub, i)
    decreases |s|
  {
    if StartsWith(s, sub) then
      assert OccursAt(s, sub, 0);
      true
    else if |s| == 0 then
      assert forall i :: !OccursAt(s, sub, i);
      false
    else
      var r := Includes(s[1..], sub);
      assert forall i :: OccursAt(s[1..], sub, i) <==> OccursAt(s, sub, i + 1) by {
        forall i ensures OccursAt(s[1..], sub, i) <==> OccursAt(s, sub, i + 1) {
          if 0 <= i && i + |sub| <= |s[1..]| {
            assert s[1..][i..i + |sub|] == s[i + 1..i + 1 + |sub|];
          }
        }
      }
      assert !OccursAt(s, sub, 0);
      assert r ==> exists i :: OccursAt(s, sub, i) by {
        if r {
          var j :| OccursAt(s[1..], sub, j);
          assert OccursAt(s, sub, j + 1);
        }
      }
      assert (exists i :: OccursAt(s, sub, i)) ==> r by {
        if exists i :: OccursAt(s, sub, i) {
          var i :| OccursAt(s, sub, i);
          assert i >= 1 && OccursAt(s[1..], sub, i - 1);
        }
      }
      r
  }

  /** `c.toLowerCase()` on one character; only ASCII letters change. */
  function LowerChar(c: char): (r: char)
    ensures 'A' <= c <= 'Z' ==> 'a' <= r <= 'z' && r as int == c as int + 32
    ensures !('A' <= c <= 'Z') ==> r == c
  {
    if 'A' <= c <= 'Z' then (c as int - 'A' as int + 'a' as int) as char else c
  }

  /** `s.toLowerCase()`, restricted to ASCII case mapping. */
  function ToLower(s: string): (r: string)
    ensures |r| == |s|
    ensures forall i :: 0 <= i < |s| ==> r[i] == LowerChar(s[i])
  {
    if |s| == 0 then [] else ToLower(s[..|s| - 1]) + [LowerChar(s[|s| - 1])]
  }

  /** Two characters that are equal once lower-cased. */
  predicate SameLetterIgnoringCase(a: char, b: char) {
    LowerChar(a) == LowerChar(b)
  }

  /**
   * Lower-casing gives a lower-case word exactly for the strings that spell that word in
   * any mix of cases.
   */
  lemma LowerEqualsWord(s: string, word: string)
    requires forall i :: 0 <= i < |word| ==> !('A' <= word[i] <= 'Z')
    ensures ToLower(s) == word <==>
              |s| == |word| && forall i :: 0 <= i < |s| ==> SameLetterIgnoringCase(s[i], word[i])
  {
    if |s| == |word| && forall i :: 0 <= i < |s| ==> SameLetterIgnoringCase(s[i], word[i]) {
      assert forall i :: 0 <= i < |s| ==> ToLower(s)[i] == word[i];
    }
  }
}
