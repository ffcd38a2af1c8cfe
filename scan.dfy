/**
 * The bookkeeping of to_schem's pixel loop (main.py:68-89), over the grid of
 * nearest-block names: g[z][x] is the name `closest` gets at pixel (x, z).
 * The loop appends unseen names to palette_blocks and records, under the key
 * x + z * W + W * L, the position of the pixel's name in palette_blocks.
 */
module Scan {
  import opened Images
  import opened Sorting

  predicate NoDuplicates(s: seq<string>) {
    forall i, j :: 0 <= i < j < |s| ==> s[i] != s[j]
  }

  /** list.index(a): the first position of a. */
  function IndexOf(s: seq<string>, a: string): (i: nat)
    requires a in s
    ensures i < |s| && s[i] == a
    ensures forall j :: 0 <= j < i ==> s[j] != a
  {
    if s[0] == a then 0 else 1 + IndexOf(s[1..], a)
  }

  /**
   * The list palette_blocks becomes when each name of s is appended unless
   * already present.
   */
  function Dedup(s: seq<string>): (r: seq<string>)
    ensures NoDuplicates(r)
    ensures forall a :: a in r <==> a in s
  {
    if s == [] then []
    else
      var d := Dedup(s[..|s| - 1]);
      assert s == s[..|s| - 1] + [s[|s| - 1]];
      if s[|s| - 1] in d then d else d + [s[|s| - 1]]
  }

  /** g has l rows of w names. */
  predicate Shaped(g: seq<seq<string>>, w: nat, l: nat) {
    |g| == l && forall z :: 0 <= z < l ==> |g[z]| == w
  }

  /** (x, z) is a point the scan, x outer and z inner, passes through. */
  predicate Reached(g: seq<seq<string>>, w: nat, l: nat, x: nat, z: nat) {
    Shaped(g, w, l) && x <= w && z <= l && (x < w || z == 0)
  }

  /** Pixel (x', z') is visited before the scan reaches (x, z). */
  predicate Before(x': nat, z': nat, x: nat, z: nat, l: nat) {
    (x' < x && z' < l) || (x' == x && z' < z)
  }

  /** The names of the pixels visited before (x, z), in visiting order. */
  function ScanTo(g: seq<seq<string>>, w: nat, l: nat, x: nat, z: nat): seq<string>
    requires Reached(g, w, l, x, z)
    decreases x, z
  {
    if z > 0 then ScanTo(g, w, l, x, z - 1) + [g[z - 1][x]]
    else if x > 0 then ScanTo(g, w, l, x - 1, l)
    else []
  }

  /** The names of all pixels in visiting order. */
  function ScanNames(g: seq<seq<string>>, w: nat, l: nat): seq<string>
    requires Shaped(g, w, l)
  {
    ScanTo(g, w, l, w, 0)
  }

  /** The dictionary key main.py:87-88 gives pixel (x, z): x + z * W + y * W * L with y = 1. */
  function Key(w: nat, l: nat, x: nat, z: nat): nat {
    x + z * w + 1 * w * l
  }

  /**
   * The indices dictionary when the scan reaches (x, z): each visited pixel's
   * key maps to the position of its name in palette_blocks as it stood then.
   */
  function IndicesTo(g: seq<seq<string>>, w: nat, l: nat, x: nat, z: nat): map<int, int>
    requires Reached(g, w, l, x, z)
    decreases x, z
  {
    if z > 0 then
      var c := g[z - 1][x];
      assert ScanTo(g, w, l, x, z) == ScanTo(g, w, l, x, z - 1) + [c];
      IndicesTo(g, w, l, x, z - 1)[Key(w, l, x, z - 1) := IndexOf(Dedup(ScanTo(g, w, l, x, z)), c)]
    else if x > 0 then IndicesTo(g, w, l, x - 1, l)
    else map[]
  }

  /**
   * The intended block layout: for linear position j = x + z * W, the
   * position in the final palette_blocks of pixel (x, z)'s name.
   */
  function Layout(g: seq<seq<string>>, w: nat, l: nat): (r: seq<int>)
    requires Shaped(g, w, l)
    ensures |r| == w * l
  {
    seq(w * l, j requires 0 <= j < w * l =>
      LinearCoords(w, l, j);
      ScanToHas(g, w, l, w, 0, j % w, j / w);
      IndexOf(Dedup(ScanNames(g, w, l)), g[j / w][j % w]))
  }

  /** [indices[i] for i in sorted(indices)], for keys inside [lo, hi). */
  function SortedValues(indices: map<int, int>, lo: int, hi: int): (r: seq<int>)
    requires Within(indices.Keys, lo, hi)
  {
    var keys := SortedKeys(indices.Keys, lo, hi);
    seq(|keys|, i requires 0 <= i < |keys| => indices[keys[i]])
  }

  // ---------------------------------------------------------------------
  // The dictionary after the scan
  // ---------------------------------------------------------------------

  /**
   * After the whole scan, sorting the dictionary's keys and reading the
   * values gives the layout: the W * L offset does not disturb the order.
   */
  lemma ScanDone(g: seq<seq<string>>, w: nat, l: nat)
    requires Shaped(g, w, l)
    ensures var n, indices := 1 * w * l, IndicesTo(g, w, l, w, 0);
      Within(indices.Keys, n, 2 * n) && SortedValues(indices, n, 2 * n) == Layout(g, w, l)
  {
    var n, indices := w * l, IndicesTo(g, w, l, w, 0);
    IndicesToBounds(g, w, l, w, 0);
    var layout := Layout(g, w, l);
    forall k | n <= k < 2 * n ensures k in indices && indices[k] == layout[k - n] {
      LayoutAt(g, w, l, k - n);
    }
    SortedValuesOfInterval(indices, n, layout);
  }

  /**
   * A dictionary keyed by exactly n .. 2n - 1 reads back, in sorted key
   * order, as the sequence of its values at n, n + 1, ...
   */
  lemma SortedValuesOfInterval(m: map<int, int>, n: nat, s: seq<int>)
    requires |s| == n && Within(m.Keys, n, 2 * n)
    requires forall k | n <= k < 2 * n :: k in m && m[k] == s[k - n]
    ensures SortedValues(m, n, 2 * n) == s
  {
    assert m.Keys == Interval(n, 2 * n);
    SortedInterval(n, 2 * n);
    var keys := SortedKeys(m.Keys, n, 2 * n);
    assert keys == Range(n, 2 * n);
    forall i | 0 <= i < n ensures SortedValues(m, n, 2 * n)[i] == s[i] {
      assert keys[i] == n + i;
    }
  }

  /** The dictionary holds the layout's entry j under the key W*L + j. */
  lemma LayoutAt(g: seq<seq<string>>, w: nat, l: nat, j: nat)
    requires Shaped(g, w, l) && j < w * l
    ensures var indices := IndicesTo(g, w, l, w, 0);
      w * l + j in indices && indices[w * l + j] == Layout(g, w, l)[j]
  {
    KeyOfLinear(w, l, j);
    IndicesToAt(g, w, l, w, 0, j % w, j / w);
  }

  /** Linear position j is the key of pixel (j % W, j / W), less the W*L offset. */
  lemma KeyOfLinear(w: nat, l: nat, j: nat)
    requires j < w * l
    ensures w > 0 && j % w < w && j / w < l && Key(w, l, j % w, j / w) == w * l + j
  {
    LinearCoords(w, l, j);
  }

  /** Every key of IndicesTo lies in [W*L, 2*W*L). */
  lemma {:induction false} IndicesToBounds(g: seq<seq<string>>, w: nat, l: nat, x: nat, z: nat)
    requires Reached(g, w, l, x, z)
    ensures Within(IndicesTo(g, w, l, x, z).Keys, w * l, 2 * (w * l))
    decreases x, z
  {
    if z > 0 {
      IndicesToBounds(g, w, l, x, z - 1);
      KeyBounds(w, l, x, z - 1);
      IndicesToSnoc(g, w, l, x, z);
      WithinUpdate(IndicesTo(g, w, l, x, z - 1), Key(w, l, x, z - 1),
                   IndexOf(Dedup(ScanTo(g, w, l, x, z)), g[z - 1][x]), w * l, 2 * (w * l));
    } else if x > 0 {
      IndicesToBounds(g, w, l, x - 1, l);
    }
  }

  /**
   * Pixel (x', z') has its key in the dictionary at (x, z), mapped to the
   * position of its name in palette_blocks as it stands at (x, z).
   */
  ghost predicate Recorded(g: seq<seq<string>>, w: nat, l: nat, x: nat, z: nat, x': nat, z': nat) {
    && Reached(g, w, l, x, z) && x' < w && z' < l
    && var a, k := g[z'][x'], Key(w, l, x', z');
       && a in Dedup(ScanTo(g, w, l, x, z))
       && k in IndicesTo(g, w, l, x, z)
       && IndicesTo(g, w, l, x, z)[k] == IndexOf(Dedup(ScanTo(g, w, l, x, z)), a)
  }

  /** Every pixel visited before (x, z) is recorded at (x, z). */
  lemma {:induction false} IndicesToAt(g: seq<seq<string>>, w: nat, l: nat, x: nat, z: nat, x': nat, z': nat)
    requires Reached(g, w, l, x, z)
    requires Before(x', z', x, z, l)
    ensures Recorded(g, w, l, x, z, x', z')
    decreases x, z
  {
    if z > 0 {
      if x' == x && z' == z - 1 {
        RecordedLatest(g, w, l, x, z);
      } else {
        IndicesToAt(g, w, l, x, z - 1, x', z');
        RecordedEarlier(g, w, l, x, z, x', z');
      }
    } else {
      IndicesToAt(g, w, l, x - 1, l, x', z');
      RecordedNextColumn(g, w, l, x, x', z');
    }
  }

  /** The pixel just visited is recorded. */
  lemma RecordedLatest(g: seq<seq<string>>, w: nat, l: nat, x: nat, z: nat)
    requires Reached(g, w, l, x, z) && x < w && z > 0
    ensures Recorded(g, w, l, x, z, x, z - 1)
  {
    IndicesToSnoc(g, w, l, x, z);
  }

  /** Ending column x - 1 is starting column x: what was recorded stays recorded. */
  lemma RecordedNextColumn(g: seq<seq<string>>, w: nat, l: nat, x: nat, x': nat, z': nat)
    requires Reached(g, w, l, x, 0) && x > 0
    requires Recorded(g, w, l, x - 1, l, x', z')
    ensures Recorded(g, w, l, x, 0, x', z')
  {
    assert ScanTo(g, w, l, x, 0) == ScanTo(g, w, l, x - 1, l);
    assert IndicesTo(g, w, l, x, 0) == IndicesTo(g, w, l, x - 1, l);
  }

  /** A pixel recorded before a step stays recorded after it. */
  lemma RecordedEarlier(g: seq<seq<string>>, w: nat, l: nat, x: nat, z: nat, x': nat, z': nat)
    requires Reached(g, w, l, x, z) && x < w && z > 0
    requires Before(x', z', x, z - 1, l)
    requires Recorded(g, w, l, x, z - 1, x', z')
    ensures Recorded(g, w, l, x, z, x', z')
  {
    IndicesToSnoc(g, w, l, x, z);
    KeysDistinct(w, l, x', z', x, z - 1);
    var d' := Dedup(ScanTo(g, w, l, x, z));
    UpdateKeeps(Dedup(ScanTo(g, w, l, x, z - 1)), d',
                IndicesTo(g, w, l, x, z - 1), IndicesTo(g, w, l, x, z),
                Key(w, l, x', z'), Key(w, l, x, z - 1), g[z'][x'], IndexOf(d', g[z - 1][x]));
  }

  /** One step of the scan appends to palette_blocks and adds one key to the dictionary. */
  lemma IndicesToSnoc(g: seq<seq<string>>, w: nat, l: nat, x: nat, z: nat)
    requires Reached(g, w, l, x, z) && x < w && z > 0
    ensures var c := g[z - 1][x];
      var s, d, d' := ScanTo(g, w, l, x, z - 1), Dedup(ScanTo(g, w, l, x, z - 1)), Dedup(ScanTo(g, w, l, x, z));
      && ScanTo(g, w, l, x, z) == s + [c]
      && d' == (if c in d then d else d + [c])
      && c in d' && |d| <= |d'| && d'[..|d|] == d
      && IndicesTo(g, w, l, x, z) == IndicesTo(g, w, l, x, z - 1)[Key(w, l, x, z - 1) := IndexOf(d', c)]
  {
    DedupPrefix(ScanTo(g, w, l, x, z - 1), g[z - 1][x]);
  }

  /** The linear positions of the pixels, offset by W*L, fill [W*L, 2*W*L). */
  lemma KeyBounds(w: nat, l: nat, x: nat, z: nat)
    requires x < w && z < l
    ensures w * l <= Key(w, l, x, z) < 2 * (w * l)
  {
    LinearInRange(w, l, x, z);
  }

  /** Distinct pixels get distinct dictionary keys. */
  lemma KeysDistinct(w: nat, l: nat, x1: nat, z1: nat, x2: nat, z2: nat)
    requires x1 < w && x2 < w && (x1 != x2 || z1 != z2)
    ensures Key(w, l, x1, z1) != Key(w, l, x2, z2)
  {
    LinearInverse(w, x1, z1);
    LinearInverse(w, x2, z2);
  }

  // ---------------------------------------------------------------------
  // Names in the scan
  // ---------------------------------------------------------------------

  /** Every pixel visited before (x, z) contributes its name to ScanTo. */
  lemma {:induction false} ScanToHas(g: seq<seq<string>>, w: nat, l: nat, x: nat, z: nat, x': nat, z': nat)
    requires Reached(g, w, l, x, z)
    requires Before(x', z', x, z, l)
    ensures g[z'][x'] in ScanTo(g, w, l, x, z)
    decreases x, z
  {
    if z > 0 {
      if !(x' == x && z' == z - 1) {
        ScanToHas(g, w, l, x, z - 1, x', z');
      }
    } else {
      ScanToHas(g, w, l, x - 1, l, x', z');
    }
  }

  /** Every name in ScanTo comes from a pixel visited before (x, z). */
  lemma {:induction false} ScanToFrom(g: seq<seq<string>>, w: nat, l: nat, x: nat, z: nat, a: string)
    returns (x': nat, z': nat)
    requires Reached(g, w, l, x, z)
    requires a in ScanTo(g, w, l, x, z)
    ensures Before(x', z', x, z, l) && g[z'][x'] == a
    decreases x, z
  {
    if z > 0 {
      if a == g[z - 1][x] {
        x', z' := x, z - 1;
      } else {
        x', z' := ScanToFrom(g, w, l, x, z - 1, a);
      }
    } else {
      x', z' := ScanToFrom(g, w, l, x - 1, l, a);
    }
  }

  // ---------------------------------------------------------------------
  // Lists
  // ---------------------------------------------------------------------

  /**
   * palette_blocks keeps first-seen order: of two palette entries, the one
   * listed first is the one whose first occurrence in the scan is earlier.
   */
  lemma {:induction false} DedupFirstSeen(s: seq<string>, i: nat, j: nat)
    requires i < j < |Dedup(s)|
    ensures Dedup(s)[i] in s && Dedup(s)[j] in s
    ensures IndexOf(s, Dedup(s)[i]) < IndexOf(s, Dedup(s)[j])
    decreases |s|
  {
    var init, c := s[..|s| - 1], s[|s| - 1];
    assert s == init + [c];
    var d := Dedup(init);
    DedupSnoc(init, c);
    assert Dedup(s)[i] == d[i];
    IndexOfSnoc(init, s, d[i]);
    if j < |d| {
      assert Dedup(s)[j] == d[j];
      IndexOfSnoc(init, s, d[j]);
      DedupFirstSeen(init, i, j);
    } else {
      IndexOfLast(init, c);
    }
  }

  /** With no duplicates, the first position of the i-th element is i. */
  lemma IndexOfDistinct(s: seq<string>, i: nat)
    requires NoDuplicates(s) && i < |s|
    ensures IndexOf(s, s[i]) == i
  {
    var k := IndexOf(s, s[i]);
    assert s[k] == s[i];
  }

  lemma DedupSnoc(s: seq<string>, c: string)
    ensures Dedup(s + [c]) == if c in Dedup(s) then Dedup(s) else Dedup(s) + [c]
  {
    assert (s + [c])[..|s|] == s;
  }

  lemma DedupPrefix(s: seq<string>, c: string)
    ensures var d, d' := Dedup(s), Dedup(s + [c]);
      && d' == (if c in d then d else d + [c])
      && c in d' && |d| <= |d'| && d'[..|d|] == d
  {
    DedupSnoc(s, c);
  }

  /**
   * A dictionary entry for an earlier pixel survives the update for a new
   * pixel, and its palette position survives appending to palette_blocks.
   */
  lemma UpdateKeeps(d: seq<string>, d': seq<string>, m: map<int, int>, m': map<int, int>,
                    k: int, k0: int, a: string, v: int)
    requires a in d && k in m && m[k] == IndexOf(d, a)
    requires |d| <= |d'| && d'[..|d|] == d
    requires k != k0 && m' == m[k0 := v]
    ensures a in d' && k in m' && m'[k] == IndexOf(d', a)
  {
    IndexOfSnoc(d, d', a);
  }

  lemma WithinUpdate(m: map<int, int>, k: int, v: int, lo: int, hi: int)
    requires Within(m.Keys, lo, hi) && lo <= k < hi
    ensures Within(m[k := v].Keys, lo, hi)
  {
  }

  lemma IndexOfLast(s: seq<string>, c: string)
    requires c !in s
    ensures IndexOf(s + [c], c) == |s|
  {
  }

  lemma {:induction false} IndexOfSnoc(s: seq<string>, t: seq<string>, a: string)
    requires a in s && |s| <= |t| && t[..|s|] == s
    ensures IndexOf(t, a) == IndexOf(s, a)
  {
    var i := IndexOf(s, a);
    assert t[i] == s[i];
  }
}
