/** Python's str.replace(pat, '') and the facts the decoder and the key naming rely on. */
module Text {

  /** pat occurs in s starting at position i. */
  predicate OccursAt(s: string, pat: string, i: int) {
    0 <= i && i + |pat| <= |s| && s[i..i + |pat|] == pat
  }

  /** pat occurs nowhere in s. */
  predicate Free(s: string, pat: string) {
    forall i | 0 <= i <= |s| :: !OccursAt(s, pat, i)
  }

  /**
   * s.replace(pat, ''): scan left to right and drop every non-overlapping
   * occurrence of pat.
   */
  function RemoveAll(s: string, pat: string): (r: string)
    requires pat != []
    ensures |r| <= |s|
    decreases |s|
  {
    if |s| < |pat| then s
    else if s[..|pat|] == pat then RemoveAll(s[|pat|..], pat)
    else [s[0]] + RemoveAll(s[1..], pat)
  }

  lemma OccursAtTail(s: string, pat: string, i: int)
    requires |s| > 0 && OccursAt(s[1..], pat, i)
    ensures OccursAt(s, pat, i + 1)
  {
    assert s[1..][i..i + |pat|] == s[i + 1..i + 1 + |pat|];
  }

  /** A string without occurrences of pat is left unchanged. */
  lemma {:induction false} RemoveAllFree(s: string, pat: string)
    requires pat != [] && Free(s, pat)
    ensures RemoveAll(s, pat) == s
    decreases |s|
  {
    if |s| >= |pat| {
      assert !OccursAt(s, pat, 0);
      assert s[..|pat|] != pat;
      forall i ensures !OccursAt(s[1..], pat, i) {
        if OccursAt(s[1..], pat, i) { OccursAtTail(s, pat, i); }
      }
      RemoveAllFree(s[1..], pat);
      assert [s[0]] + s[1..] == s;
    }
  }

  /** Removing pat from pat + s gives s back when s itself holds no pat. */
  lemma RemoveAllPrefixed(s: string, pat: string)
    requires pat != [] && Free(s, pat)
    ensures RemoveAll(pat + s, pat) == s
  {
    assert (pat + s)[..|pat|] == pat;
    assert (pat + s)[|pat|..] == s;
    RemoveAllFree(s, pat);
  }

  /**
   * Removing pat from s + pat gives s back when pat occurs in s + pat only at
   * its end.
   */
  lemma {:induction false} RemoveAllSuffixed(s: string, pat: string)
    requires pat != []
    requires forall i :: 0 <= i < |s| ==> !OccursAt(s + pat, pat, i)
    ensures RemoveAll(s + pat, pat) == s
    decreases |s|
  {
    if s == [] {
      assert s + pat == pat;
      assert pat[|pat|..] == [];
    } else {
      var t := s + pat;
      assert !OccursAt(t, pat, 0);
      assert t[..|pat|] != pat;
      assert t[1..] == s[1..] + pat;
      forall i | 0 <= i < |s[1..]| ensures !OccursAt(s[1..] + pat, pat, i) {
        if OccursAt(s[1..] + pat, pat, i) { OccursAtTail(t, pat, i); }
      }
      RemoveAllSuffixed(s[1..], pat);
      assert [s[0]] + s[1..] == s;
    }
  }

  /** A string without the character c holds no pattern that starts with c. */
  lemma FreeOfLeadChar(s: string, pat: string)
    requires pat != [] && pat[0] !in s
    ensures Free(s, pat)
  {
    forall i | 0 <= i && i + |pat| <= |s| ensures !OccursAt(s, pat, i) {
      assert s[i..i + |pat|][0] == s[i];
    }
  }
}
