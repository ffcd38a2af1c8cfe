/**
 * Python's sorted() on the integer keys of a dictionary. The keys are
 * enumerated in ascending order across an interval [lo, hi) known to contain
 * them; SortedKeysUnique shows that the bounds do not affect the result.
 */
module Sorting {

  predicate StrictlyIncreasing(s: seq<int>) {
    forall i, j :: 0 <= i < j < |s| ==> s[i] < s[j]
  }

  /** Every key lies in [lo, hi). */
  predicate Within(keys: set<int>, lo: int, hi: int) {
    forall k :: k in keys ==> lo <= k < hi
  }

  /** sorted(keys), for keys inside [lo, hi). */
  function SortedKeys(keys: set<int>, lo: int, hi: int): (r: seq<int>)
    ensures forall i :: 0 <= i < |r| ==> lo <= r[i] < hi && r[i] in keys
    ensures forall k :: k in keys && lo <= k < hi ==> k in r
    ensures StrictlyIncreasing(r)
    decreases hi - lo
  {
    if lo >= hi then []
    else if lo in keys then [lo] + SortedKeys(keys, lo + 1, hi)
    else SortedKeys(keys, lo + 1, hi)
  }

  /** Two ascending sequences with the same elements are equal. */
  lemma {:induction false} AscendingUnique(s: seq<int>, t: seq<int>)
    requires StrictlyIncreasing(s) && StrictlyIncreasing(t)
    requires forall k :: k in s <==> k in t
    ensures s == t
    decreases |s|
  {
    assert s != [] ==> s[0] in s && s[0] in t;
    assert t != [] ==> t[0] in t && t[0] in s;
    if s != [] && t != [] {
      assert s[0] == t[0] by {
        assert s[0] in t && t[0] in s;
      }
      forall k ensures k in s[1..] <==> k in t[1..] {
        if k in s[1..] {
          assert k in t && k != t[0];
        }
        if k in t[1..] {
          assert k in s && k != s[0];
        }
      }
      AscendingUnique(s[1..], t[1..]);
      assert s == [s[0]] + s[1..] && t == [t[0]] + t[1..];
    }
  }

  /**
   * The enumeration is the one ascending listing of the keys: any two
   * intervals that contain all keys give the same sequence.
   */
  lemma SortedKeysUnique(keys: set<int>, lo: int, hi: int, lo': int, hi': int)
    requires Within(keys, lo, hi) && Within(keys, lo', hi')
    ensures SortedKeys(keys, lo, hi) == SortedKeys(keys, lo', hi')
  {
    var s, t := SortedKeys(keys, lo, hi), SortedKeys(keys, lo', hi');
    forall k ensures k in s <==> k in t {
      if k in s { var i :| 0 <= i < |s| && s[i] == k; }
      if k in t { var i :| 0 <= i < |t| && t[i] == k; }
    }
    AscendingUnique(s, t);
  }

  /** The set of integers lo .. hi - 1. */
  function Interval(lo: int, hi: int): (r: set<int>)
    ensures forall k :: k in r <==> lo <= k < hi
    decreases hi - lo
  {
    if lo >= hi then {} else {lo} + Interval(lo + 1, hi)
  }

  /** The integers lo .. hi - 1 in ascending order. */
  function Range(lo: int, hi: int): seq<int>
    requires lo <= hi
  {
    seq(hi - lo, i requires 0 <= i < hi - lo => lo + i)
  }

  /** Sorting the keys of a whole interval enumerates the interval in order. */
  lemma SortedInterval(lo: int, hi: int)
    requires lo <= hi
    ensures SortedKeys(Interval(lo, hi), lo, hi) == Range(lo, hi)
  {
    var s, r := SortedKeys(Interval(lo, hi), lo, hi), Range(lo, hi);
    forall k ensures k in s <==> k in r {
      if lo <= k < hi { assert r[k - lo] == k; }
      if k in s { var i :| 0 <= i < |s| && s[i] == k; }
    }
    AscendingUnique(s, r);
  }

  /**
   * Offsetting an interval of keys by a constant offsets its sorted
   * enumeration by the same constant, position by position.
   */
  lemma SortedIntervalShift(lo: int, hi: int, c: int)
    requires lo <= hi
    ensures |SortedKeys(Interval(lo + c, hi + c), lo + c, hi + c)| == |SortedKeys(Interval(lo, hi), lo, hi)| == hi - lo
    ensures forall i :: 0 <= i < hi - lo ==>
      SortedKeys(Interval(lo + c, hi + c), lo + c, hi + c)[i] == SortedKeys(Interval(lo, hi), lo, hi)[i] + c
  {
    var s, t := SortedKeys(Interval(lo, hi), lo, hi), SortedKeys(Interval(lo + c, hi + c), lo + c, hi + c);
    SortedInterval(lo, hi);
    SortedInterval(lo + c, hi + c);
    assert s == Range(lo, hi) && t == Range(lo + c, hi + c);
    forall i | 0 <= i < hi - lo ensures t[i] == s[i] + c {
      assert Range(lo + c, hi + c)[i] == lo + c + i;
      assert Range(lo, hi)[i] == lo + i;
    }
  }
}
