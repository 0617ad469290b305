/**
 * The address-shape test of the contact route: the regular expression
 * `^[^\s@]+@[^\s@]+\.[^\s@]+$`, its match semantics, the field-by-field
 * shape it accepts, and a single-pass checker proved to agree with both.
 */
module EmailAddress {
  import opened Text

  /** Unicode general category Zs (space separators). */
  predicate IsSpaceSeparator(c: char) {
    || c == ' ' || c == '\U{00A0}' || c == '\U{1680}'
    || ('\U{2000}' <= c <= '\U{200A}')
    || c == '\U{202F}' || c == '\U{205F}' || c == '\U{3000}'
  }

  /**
   * The `\s` class of ECMAScript regular expressions (section 22.2.2.9 of
   * ECMA-262): the WhiteSpace code points (TAB, VT, FF, ZWNBSP and every Zs)
   * and the LineTerminator code points (LF, CR, LS, PS).
   */
  predicate IsSpace(c: char) {
    || c == '\t' || c == '\U{000B}' || c == '\U{000C}' || c == '\U{FEFF}'
    || IsSpaceSeparator(c)
    || c == '\n' || c == '\r' || c == '\U{2028}' || c == '\U{2029}'
  }

  /** The character class `[^\s@]`. */
  predicate InClass(c: char) {
    !IsSpace(c) && c != '@'
  }

  predicate AllInClass(t: string) {
    forall k :: 0 <= k < |t| ==> InClass(t[k])
  }

  /** Positions lo .. hi - 1 of `s` all belong to `[^\s@]`. */
  predicate RunInClass(s: string, lo: nat, hi: nat)
    requires lo <= hi <= |s|
  {
    forall k :: lo <= k < hi ==> InClass(s[k])
  }

  /**
   * `s` reads as A "@" B "." C where A = s[..at], B = s[at + 1..dot] and
   * C = s[dot + 1..] are non-empty runs of `[^\s@]`.
   */
  predicate SplitsAt(s: string, at: nat, dot: nat) {
    && 0 < at && at + 1 < dot && dot + 1 < |s|
    && s[at] == '@' && s[dot] == '.'
    && RunInClass(s, 0, at) && RunInClass(s, at + 1, dot) && RunInClass(s, dot + 1, |s|)
  }

  /**
   * The language of the anchored pattern: the regular expression matches
   * `s` (backtracking finds a match whenever one exists) exactly when some
   * split of this form exists.
   */
  ghost predicate MatchesPattern(s: string) {
    exists at: nat, dot: nat :: SplitsAt(s, at, dot)
  }

  predicate NoSpace(s: string) {
    forall k :: 0 <= k < |s| ==> !IsSpace(s[k])
  }

  /** The domain holds a '.' that is neither its first nor its last character. */
  predicate HasInnerDot(domain: string) {
    exists i :: 1 <= i <= |domain| - 2 && domain[i] == '.'
  }

  /**
   * The shape the pattern accepts, field by field: no whitespace, exactly
   * one '@', a non-empty local part before it, and an inner '.' in the
   * domain after it.
   */
  predicate WellShaped(s: string) {
    var at := IndexOf('@', s);
    && NoSpace(s)
    && Count('@', s) == 1
    && 0 < at < |s|
    && HasInnerDot(s[at + 1..])
  }

  /** A split of the pattern gives a well-shaped address. */
  lemma SplitIsWellShaped(s: string, at: nat, dot: nat)
    requires SplitsAt(s, at, dot)
    ensures WellShaped(s)
  {
    forall k | 0 <= k < |s| && k != at
      ensures InClass(s[k])
    {
      if k < at {
        assert RunInClass(s, 0, at);
      } else if k < dot {
        assert RunInClass(s, at + 1, dot);
      } else if k > dot {
        assert RunInClass(s, dot + 1, |s|);
      }
    }
    CountOnce('@', s, at);
    var domain := s[at + 1..];
    assert domain[dot - at - 1] == '.';
  }

  /** A well-shaped address splits as the pattern requires. */
  lemma WellShapedSplits(s: string) returns (at: nat, dot: nat)
    requires WellShaped(s)
    ensures SplitsAt(s, at, dot)
  {
    at := IndexOf('@', s);
    var domain := s[at + 1..];
    var i :| 1 <= i <= |domain| - 2 && domain[i] == '.';
    dot := at + 1 + i;
    forall k | 0 <= k < |s| && k != at
      ensures InClass(s[k])
    {
      if s[k] == '@' {
        CountOneUnique('@', s, k, at);
      }
    }
  }

  /** The regular expression accepts exactly the well-shaped addresses. */
  lemma PatternIsWellShaped(s: string)
    ensures MatchesPattern(s) <==> WellShaped(s)
  {
    if MatchesPattern(s) {
      var at: nat, dot: nat :| SplitsAt(s, at, dot);
      SplitIsWellShaped(s, at, dot);
    }
    if WellShaped(s) {
      var at, dot := WellShapedSplits(s);
    }
  }

  /**
   * An address assembled from a local part, a host and a top-level part,
   * each a non-empty run of `[^\s@]`, passes the check (as "ada@example.com"
   * does, from "ada", "example" and "com").
   */
  lemma AssembledAddressIsWellShaped(local: string, host: string, tld: string)
    requires local != [] && host != [] && tld != []
    requires AllInClass(local) && AllInClass(host) && AllInClass(tld)
    ensures WellShaped(local + "@" + host + "." + tld)
  {
    var s := local + "@" + host + "." + tld;
    var at, dot := |local|, |local| + 1 + |host|;
    forall k | 0 <= k < |s| && k != at && k != dot
      ensures InClass(s[k])
    {
      if k < at {
        assert s[k] == local[k];
      } else if k < dot {
        assert s[k] == host[k - at - 1];
      } else {
        assert s[k] == tld[k - dot - 1];
      }
    }
    SplitIsWellShaped(s, at, dot);
  }

  /**
   * The test `emailRegex.test(s)`, as one left-to-right scan that counts
   * the '@' characters and rejects whitespace, then a scan of the domain
   * for an inner '.'.
   */
  method Test(s: string) returns (ok: bool)
    ensures ok == WellShaped(s)
    ensures ok == MatchesPattern(s)
  {
    PatternIsWellShaped(s);
    var ats, at, i := 0, |s|, 0;
    while i < |s|
      invariant 0 <= i <= |s|
      invariant NoSpace(s[..i])
      invariant ats == Count('@', s[..i])
      invariant ats == 0 ==> at == |s| && forall k :: 0 <= k < i ==> s[k] != '@'
      invariant ats != 0 ==> 0 <= at < i && s[at] == '@' && forall k :: 0 <= k < at ==> s[k] != '@'
    {
      if IsSpace(s[i]) {
        return false;
      }
      CountPrefixStep('@', s, i);
      if s[i] == '@' {
        if ats == 0 {
          at := i;
        }
        ats := ats + 1;
      }
      i := i + 1;
    }
    assert s[..i] == s;
    if ats != 1 || at == 0 {
      return false;
    }
    assert at == IndexOf('@', s);
    var j := at + 2;
    while j + 1 < |s|
      invariant at + 2 <= j
      invariant forall k :: at + 2 <= k < j && k < |s| ==> s[k] != '.'
      decreases |s| - j
    {
      if s[j] == '.' {
        assert s[at + 1..][j - at - 1] == '.';
        return true;
      }
      j := j + 1;
    }
    ok := false;
  }
}
