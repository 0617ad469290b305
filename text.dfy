/** Small facts about strings shared by the email check, the line-break rewrite and the handler. */
module Text {

  /** Number of occurrences of `c` in `s`. */
  function Count(c: char, s: string): (n: nat)
    ensures n <= |s|
  {
    if s == [] then 0 else (if s[0] == c then 1 else 0) + Count(c, s[1..])
  }

  /** Index of the first `c` in `s`, or `|s|` when there is none. */
  function IndexOf(c: char, s: string): (i: nat)
    ensures i <= |s|
    ensures i < |s| ==> s[i] == c
    ensures i == |s| <==> c !in s
    ensures forall k :: 0 <= k < i ==> s[k] != c
  {
    if s == [] then 0 else if s[0] == c then 0 else 1 + IndexOf(c, s[1..])
  }

  /** `t` sits in `s` starting at index `i`: `s` is some text of length `i`, then `t`, then the rest. */
  ghost predicate OccursAt(t: string, s: string, i: nat) {
    exists before, after :: s == before + t + after && |before| == i
  }

  /** `t` is a substring of `s`. */
  ghost predicate IsInfix(t: string, s: string) {
    exists i: nat :: OccursAt(t, s, i)
  }

  lemma OccursAtStart(x: string, after: string)
    ensures OccursAt(x, x + after, 0)
  {
    assert x + after == [] + x + after;
  }

  lemma OccursShifted(before: string, y: string, x: string, i: nat, j: nat)
    requires OccursAt(x, y, i) && j == |before| + i
    ensures OccursAt(x, before + y, j)
  {
    var pre, post :| y == pre + x + post && |pre| == i;
    assert before + y == (before + pre) + x + post;
  }

  lemma OccursBetween(before: string, x: string, after: string)
    ensures OccursAt(x, before + x + after, |before|)
  {
  }

  /** A character is counted zero times exactly when it does not occur. */
  lemma {:induction false} CountZeroIff(c: char, s: string)
    ensures Count(c, s) == 0 <==> c !in s
  {
    if s != [] {
      CountZeroIff(c, s[1..]);
      assert s == [s[0]] + s[1..];
    }
  }

  lemma {:induction false} CountConcat(c: char, a: string, b: string)
    ensures Count(c, a + b) == Count(c, a) + Count(c, b)
  {
    if a == [] {
      assert a + b == b;
    } else {
      assert (a + b)[1..] == a[1..] + b;
      CountConcat(c, a[1..], b);
    }
  }

  /** Counting one more character of a prefix. */
  lemma CountPrefixStep(c: char, s: string, i: nat)
    requires i < |s|
    ensures Count(c, s[..i + 1]) == Count(c, s[..i]) + (if s[i] == c then 1 else 0)
  {
    assert s[..i + 1] == s[..i] + [s[i]];
    CountConcat(c, s[..i], [s[i]]);
  }

  /** A character found at exactly one index is counted once. */
  lemma CountOnce(c: char, s: string, i: nat)
    requires i < |s| && s[i] == c
    requires forall k :: 0 <= k < |s| && k != i ==> s[k] != c
    ensures Count(c, s) == 1
  {
    var before, after := s[..i], s[i + 1..];
    assert c !in before by {
      forall k | 0 <= k < |before| ensures before[k] != c { assert before[k] == s[k]; }
    }
    assert c !in after by {
      forall k | 0 <= k < |after| ensures after[k] != c { assert after[k] == s[i + 1 + k]; }
    }
    CountZeroIff(c, before);
    CountZeroIff(c, after);
    assert s == before + [c] + after;
    CountConcat(c, before + [c], after);
    CountConcat(c, before, [c]);
  }

  /** A character counted once occurs at exactly one index. */
  lemma CountOneUnique(c: char, s: string, i: nat, j: nat)
    requires Count(c, s) == 1
    requires i < |s| && j < |s| && s[i] == c && s[j] == c
    ensures i == j
  {
    if i != j {
      var lo, hi := if i < j then i else j, if i < j then j else i;
      assert s[..hi][lo] == c;
      assert s[hi..][0] == c;
      CountZeroIff(c, s[..hi]);
      CountZeroIff(c, s[hi..]);
      assert s == s[..hi] + s[hi..];
      CountConcat(c, s[..hi], s[hi..]);
    }
  }
}
