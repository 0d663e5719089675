/** Plain string helpers shared by the cache format and the cleaning pass.
    A string is a `seq<char>`, a sequence of Unicode scalar values, whereas a
    JavaScript string is a sequence of UTF-16 code units. The two agree on
    every string these operations see: `readFile(.., 'utf8')` yields
    well-formed text, and the URL pattern at index.ts:80 matches ASCII only. */
module Strings {

  /** The conventional optional value: `None` stands for "absent" (a missing
      file) or for a call that throws (a URL that does not parse). */
  datatype Option<+T> = None | Some(value: T)

  /** `s.includes(part)`: `part` occurs in `s` as a contiguous run. Every
      string contains itself and the empty string, and never a longer one. */
  function Contains(s: string, part: string): (found: bool)
    ensures found ==> |part| <= |s|
    ensures part == s ==> found
    ensures |part| == 0 ==> found
  {
    assert OccursAt(s, s, 0) && OccursAt(s, [], 0);
    exists i: nat | i <= |s| :: OccursAt(s, part, i)
  }

  /** `part` occurs in `s` starting at index `i`. */
  predicate OccursAt(s: string, part: string, i: nat)
  {
    i + |part| <= |s| && s[i..i + |part|] == part
  }

  /** How many times `c` occurs in `s`. */
  function Count(s: string, c: char): (n: nat)
    ensures n == 0 <==> c !in s
    ensures n <= |s|
  {
    if |s| == 0 then 0
    else (if s[0] == c then 1 else 0) + Count(s[1..], c)
  }

  /** Occurrences in a concatenation add up. */
  lemma {:induction false} CountConcat(a: string, b: string, c: char)
    ensures Count(a + b, c) == Count(a, c) + Count(b, c)
  {
    if |a| == 0 {
      assert a + b == b;
    } else {
      CountConcat(a[1..], b, c);
      assert (a + b)[0] == a[0] && (a + b)[1..] == a[1..] + b;
    }
  }

  /** Containment is transitive: a run inside a run of `a` is a run of `a`. */
  lemma ContainsTransitive(a: string, b: string, c: string)
    requires Contains(a, b) && Contains(b, c)
    ensures Contains(a, c)
  {
    var i: nat :| i <= |a| && OccursAt(a, b, i);
    var j: nat :| j <= |b| && OccursAt(b, c, j);
    assert a[i + j..i + j + |c|] == c by {
      forall k | 0 <= k < |c|
        ensures a[i + j..i + j + |c|][k] == c[k]
      {
        assert a[i + j..i + j + |c|][k] == a[i + j + k] == b[j + k] == c[k];
      }
    }
    assert OccursAt(a, c, i + j);
  }

  /** Every character of a contained string is a character of the container;
      a character missing from `s` therefore rules containment out. */
  lemma ContainsChars(s: string, part: string, k: nat)
    requires Contains(s, part) && k < |part|
    ensures part[k] in s
  {
  }
}
