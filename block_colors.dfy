/**
 * add_blocks (main.py:18-37): for every texture, the average RGBA colour of
 * its pixels is stored in block.json under a key derived from the file name.
 * Reading and writing block.json and opening the texture are replaced by
 * passing the table and the decoded textures in and the table out.
 */
module BlockColors {
  import opened Wrappers
  import opened Colors
  import opened Images
  import opened Text

  /** int(sum(...) / len(clist)) divides by zero for a texture without pixels. */
  datatype AddError = EmptyTexture(file: string)

  // ---------------------------------------------------------------------
  // Collecting the pixels (main.py:24-27)
  // ---------------------------------------------------------------------

  /** [(x, z) for x in range(W) for z in range(L)]: x outer, z inner. */
  function Coords(w: nat, l: nat): (r: seq<(nat, nat)>)
    ensures |r| == w * l
    ensures forall k :: 0 <= k < |r| ==> r[k].0 < w && r[k].1 < l && r[k] == (k / l, k % l)
  {
    seq(w * l, k requires 0 <= k < w * l => CoordOf(w, l, k))
  }

  /** The k-th coordinate of the comprehension. */
  function CoordOf(w: nat, l: nat, k: nat): (c: (nat, nat))
    requires k < w * l
    ensures c.0 < w && c.1 < l && c == (k / l, k % l)
  {
    LinearCoords(l, w, k);
    assert k == k % l + (k / l) * l;
    (k / l, k % l)
  }

  /** The pixels of img in the order of Coords. */
  function TexturePixels(img: Image): (r: seq<Rgba>)
    requires WellFormed(img)
    ensures |r| == Area(img)
  {
    var cs := Coords(img.width, img.length);
    seq(|cs|, k requires 0 <= k < |cs| => Pixel(img, cs[k].0, cs[k].1))
  }

  /** The loop appending getpixel(c) to clist for every coordinate c. */
  method CollectPixels(img: Image) returns (clist: seq<Rgba>)
    requires WellFormed(img)
    ensures clist == TexturePixels(img)
  {
    var coords := Coords(img.width, img.length);
    clist := [];
    for k := 0 to |coords|
      invariant |clist| == k
      invariant forall i :: 0 <= i < k ==> clist[i] == Pixel(img, coords[i].0, coords[i].1)
    {
      var c := coords[k];
      var rgb := Pixel(img, c.0, c.1);
      clist := clist + [rgb];
    }
  }

  // ---------------------------------------------------------------------
  // Averaging (main.py:29-32)
  // ---------------------------------------------------------------------

  /** Channel k of a pixel: rgb[k]. */
  function Component(p: Rgba, k: nat): (v: int)
    requires k < 4
    ensures 0 <= v < 256
  {
    match k
    case 0 => p.r
    case 1 => p.g
    case 2 => p.b
    case 3 => p.a
  }

  /** sum([rgb[k] for rgb in clist]). */
  function ChannelSum(pixels: seq<Rgba>, k: nat): (s: int)
    requires k < 4
    ensures 0 <= s <= 255 * |pixels|
    decreases |pixels|
  {
    if pixels == [] then 0 else ChannelSum(pixels[..|pixels| - 1], k) + Component(pixels[|pixels| - 1], k)
  }

  /**
   * int(sum / len), the sum being non-negative: the truncated mean, the one
   * m with m * n <= sum < (m + 1) * n.
   */
  function Mean(sum: nat, n: nat): (m: nat)
    requires n > 0
    ensures m * n <= sum && sum - m * n < n
  {
    DivBounds(sum, n);
    sum / n
  }

  lemma DivBounds(sum: nat, n: nat)
    requires n > 0
    ensures (sum / n) * n <= sum && sum - (sum / n) * n < n
  {
    DivModUnique(sum, n, sum / n, sum % n);
  }

  /** Only one m satisfies the truncated-mean bounds. */
  lemma MeanUnique(sum: nat, n: nat, m: nat)
    requires n > 0 && m * n <= sum && sum - m * n < n
    ensures Mean(sum, n) == m
  {
    DivModUnique(sum, n, m, sum - m * n);
  }

  /** The truncated mean of channel values is a channel value. */
  lemma MeanIsChannel(sum: nat, n: nat)
    requires n > 0 && sum <= 255 * n
    ensures Mean(sum, n) < 256
  {
    var m := Mean(sum, n);
    if m >= 256 {
      MulMono(256, m, n);
    }
  }

  lemma MulMono(a: nat, b: nat, n: nat)
    requires a <= b
    ensures a * n <= b * n
  {
  }

  /** The averages r, g, b, a of main.py:29-32, or the division by zero of an empty texture. */
  function Average(pixels: seq<Rgba>): (r: Option<Rgba>)
    ensures r.None? <==> |pixels| == 0
    ensures r.Some? ==> forall k :: 0 <= k < 4 ==> var m := Component(r.value, k);
      m * |pixels| <= ChannelSum(pixels, k) && ChannelSum(pixels, k) - m * |pixels| < |pixels|
  {
    if |pixels| == 0 then None
    else
      var n := |pixels|;
      MeanIsChannel(ChannelSum(pixels, 0), n);
      MeanIsChannel(ChannelSum(pixels, 1), n);
      MeanIsChannel(ChannelSum(pixels, 2), n);
      MeanIsChannel(ChannelSum(pixels, 3), n);
      Some(Rgba(Mean(ChannelSum(pixels, 0), n), Mean(ChannelSum(pixels, 1), n),
                Mean(ChannelSum(pixels, 2), n), Mean(ChannelSum(pixels, 3), n)))
  }

  /** A texture of one colour averages to that colour. */
  lemma AverageUniform(pixels: seq<Rgba>, c: Rgba)
    requires |pixels| > 0 && forall i :: 0 <= i < |pixels| ==> pixels[i] == c
    ensures Average(pixels) == Some(c)
  {
    var n := |pixels|;
    UniformMean(pixels, c, 0);
    UniformMean(pixels, c, 1);
    UniformMean(pixels, c, 2);
    UniformMean(pixels, c, 3);
  }

  /** Channel k of a one-colour texture averages to channel k of the colour. */
  lemma UniformMean(pixels: seq<Rgba>, c: Rgba, k: nat)
    requires k < 4 && |pixels| > 0 && forall i :: 0 <= i < |pixels| ==> pixels[i] == c
    ensures Mean(ChannelSum(pixels, k), |pixels|) == Component(c, k)
  {
    UniformSum(pixels, c, k);
    MeanUnique(ChannelSum(pixels, k), |pixels|, Component(c, k));
  }

  lemma {:induction false} UniformSum(pixels: seq<Rgba>, c: Rgba, k: nat)
    requires k < 4 && forall i :: 0 <= i < |pixels| ==> pixels[i] == c
    ensures ChannelSum(pixels, k) == Component(c, k) * |pixels|
    decreases |pixels|
  {
    if pixels != [] {
      var init := pixels[..|pixels| - 1];
      UniformSum(init, c, k);
      assert Component(c, k) * |pixels| == Component(c, k) * |init| + Component(c, k);
    }
  }

  // ---------------------------------------------------------------------
  // The key (main.py:33-34)
  // ---------------------------------------------------------------------

  /** filename.replace('.png', '') and then .replace('_top', ''). */
  function TextureKey(filename: string): string {
    RemoveAll(RemoveAll(filename, ".png"), "_top")
  }

  /** No proper suffix of pat is also a prefix of it: two occurrences cannot overlap. */
  predicate NoBorder(pat: string) {
    forall k :: 0 < k < |pat| ==> pat[k..] != pat[..|pat| - k]
  }

  /** An occurrence of pat in s + pat that starts inside s is an occurrence in s, or overlaps the final pat. */
  lemma RemoveSuffix(s: string, pat: string)
    requires pat != [] && NoBorder(pat) && Free(s, pat)
    ensures RemoveAll(s + pat, pat) == s
  {
    forall i | 0 <= i < |s| ensures !OccursAt(s + pat, pat, i) {
      if i + |pat| <= |s| {
        assert !OccursAt(s, pat, i);
        assert (s + pat)[i..i + |pat|] == s[i..i + |pat|];
      } else {
        NoStraddle(s, pat, i);
      }
    }
    RemoveAllSuffixed(s, pat);
  }

  /** Without a border, pat cannot start inside s and end inside the appended pat. */
  lemma NoStraddle(s: string, pat: string, i: nat)
    requires NoBorder(pat) && i < |s| < i + |pat|
    ensures !OccursAt(s + pat, pat, i)
  {
    var t, k := s + pat, |s| - i;
    assert t[i + k..i + |pat|] == pat[..|pat| - k];
    assert t[i..i + |pat|][k..] == t[i + k..i + |pat|];
    assert pat[k..] != pat[..|pat| - k];
  }

  /** A pattern whose first character does not recur has no border. */
  lemma LeadUnique(pat: string)
    requires |pat| > 0 && forall i :: 0 < i < |pat| ==> pat[i] != pat[0]
    ensures NoBorder(pat)
  {
    forall k | 0 < k < |pat| ensures pat[k..] != pat[..|pat| - k] {
      assert pat[k..][0] == pat[k] && pat[..|pat| - k][0] == pat[0];
    }
  }

  lemma SuffixesHaveNoBorder()
    ensures NoBorder(".png") && NoBorder("_top")
  {
    LeadUnique(".png");
    LeadUnique("_top");
  }

  /**
   * For a block name without '.' and without "_top", the texture names
   * name, name.png, name_top and name_top.png all store under name.
   */
  lemma TextureKeyOfName(name: string)
    requires '.' !in name && Free(name, "_top")
    ensures TextureKey(name) == name
    ensures TextureKey(name + ".png") == name
    ensures TextureKey(name + "_top") == name
    ensures TextureKey(name + "_top.png") == name
  {
    SuffixesHaveNoBorder();
    var top := name + "_top";
    assert '.' !in top by {
      assert forall i :: 0 <= i < |top| ==> top[i] == (if i < |name| then name[i] else "_top"[i - |name|]);
    }
    FreeOfLeadChar(name, ".png");
    FreeOfLeadChar(top, ".png");
    RemoveAllFree(name, ".png");
    RemoveAllFree(name, "_top");
    RemoveSuffix(name, ".png");
    RemoveAllFree(top, ".png");
    RemoveSuffix(name, "_top");
    assert name + "_top.png" == top + ".png";
    RemoveSuffix(top, ".png");
  }

  // ---------------------------------------------------------------------
  // Storing the colour (main.py:34) and the loop over files (main.py:19-37)
  // ---------------------------------------------------------------------

  /**
   * jdata[key] = colour: an existing key keeps its position and takes the
   * new colour (SetEntryLookup); a new key goes to the end.
   */
  function SetEntry(table: Table, key: string, c: Rgba): (r: Table)
    ensures |r| == if Lookup(table, key).Some? then |table| else |table| + 1
    ensures forall i :: 0 <= i < |table| ==> r[i].name == table[i].name
    ensures |r| > |table| ==> r[|table|] == Entry(key, c)
    decreases |table|
  {
    if table == [] then [Entry(key, c)]
    else if table[0].name == key then [Entry(key, c)] + table[1..]
    else [table[0]] + SetEntry(table[1..], key, c)
  }

  /** After jdata[key] = c, key maps to c and every other key to what it did before. */
  lemma {:induction false} SetEntryLookup(table: Table, key: string, c: Rgba, n: string)
    ensures Lookup(SetEntry(table, key, c), n) == if n == key then Some(c) else Lookup(table, n)
    decreases |table|
  {
    if table != [] && table[0].name != key {
      SetEntryLookup(table[1..], key, c, n);
    }
  }

  /** jdata[key] = c keeps the keys distinct. */
  lemma SetEntryDistinct(table: Table, key: string, c: Rgba)
    requires DistinctNames(table)
    ensures DistinctNames(SetEntry(table, key, c))
  {
    var r := SetEntry(table, key, c);
    if |r| > |table| {
      forall i | 0 <= i < |table| ensures r[i].name != key {
        assert table[i].name != key;
      }
    } else {
      forall i | 0 <= i < |table| ensures r[i].name == table[i].name {}
    }
  }

  /** block.json after add_blocks, and whether it stopped at an empty texture. */
  datatype Outcome = Outcome(table: Table, error: Option<AddError>)

  /**
   * The specification of the loop: block.json is rewritten after every
   * file, so when a texture has no pixels the entries of the files before
   * it are kept.
   */
  function AddAll(table: Table, files: seq<(string, Image)>): Outcome
    requires forall i :: 0 <= i < |files| ==> WellFormed(files[i].1)
    decreases |files|
  {
    if files == [] then Outcome(table, None)
    else
      match Average(TexturePixels(files[0].1))
      case None => Outcome(table, Some(EmptyTexture(files[0].0)))
      case Some(c) => AddAll(SetEntry(table, TextureKey(files[0].0), c), files[1..])
  }

  /** add_blocks(filenames), each file given with its decoded texture. */
  method AddBlocks(table: Table, files: seq<(string, Image)>) returns (out: Outcome)
    requires forall i :: 0 <= i < |files| ==> WellFormed(files[i].1)
    ensures out == AddAll(table, files)
  {
    var jdata := table;
    var i := 0;
    while i < |files|
      invariant i <= |files|
      invariant AddAll(table, files) == AddAll(jdata, files[i..])
    {
      var (filename, im) := files[i];
      var clist := CollectPixels(im);
      var avg := Average(clist);
      if avg.None? {
        return Outcome(jdata, Some(EmptyTexture(filename)));
      }
      jdata := SetEntry(jdata, TextureKey(filename), avg.value);
      assert files[i..][1..] == files[i + 1..];
      i := i + 1;
    }
    out := Outcome(jdata, None);
  }

  /** add_blocks keeps block.json's keys distinct. */
  lemma {:induction false} AddAllDistinct(table: Table, files: seq<(string, Image)>)
    requires forall i :: 0 <= i < |files| ==> WellFormed(files[i].1)
    requires DistinctNames(table)
    ensures DistinctNames(AddAll(table, files).table)
    decreases |files|
  {
    if files != [] {
      var c := Average(TexturePixels(files[0].1));
      if c.Some? {
        AddAllDistinct(SetEntry(table, TextureKey(files[0].0), c.value), files[1..]);
      }
    }
  }

  /** After a run without error, a key no file produces keeps its colour. */
  lemma {:induction false} AddAllUntouched(table: Table, files: seq<(string, Image)>, n: string)
    requires forall i :: 0 <= i < |files| ==> WellFormed(files[i].1)
    requires AddAll(table, files).error.None?
    requires forall i :: 0 <= i < |files| ==> TextureKey(files[i].0) != n
    ensures Lookup(AddAll(table, files).table, n) == Lookup(table, n)
    decreases |files|
  {
    if files != [] {
      var key, c := TextureKey(files[0].0), Average(TexturePixels(files[0].1)).value;
      var rest := files[1..];
      assert forall i :: 0 <= i < |rest| ==> rest[i] == files[i + 1];
      SetEntryLookup(table, key, c, n);
      AddAllUntouched(SetEntry(table, key, c), rest, n);
    }
  }

  /**
   * After a run without error, a key holds the average of the last file
   * producing it: a later texture with the same key overwrites an earlier one.
   */
  lemma {:induction false} AddAllLast(table: Table, files: seq<(string, Image)>, n: string, i: nat)
    requires forall i :: 0 <= i < |files| ==> WellFormed(files[i].1)
    requires AddAll(table, files).error.None?
    requires i < |files| && TextureKey(files[i].0) == n
    requires forall j :: i < j < |files| ==> TextureKey(files[j].0) != n
    ensures Lookup(AddAll(table, files).table, n) == Average(TexturePixels(files[i].1))
    decreases |files|
  {
    var key, c := TextureKey(files[0].0), Average(TexturePixels(files[0].1)).value;
    var rest := files[1..];
    assert forall j :: 0 <= j < |rest| ==> rest[j] == files[j + 1];
    if i == 0 {
      SetEntryLookup(table, key, c, n);
      AddAllUntouched(SetEntry(table, key, c), rest, n);
    } else {
      AddAllLast(SetEntry(table, key, c), rest, n, i - 1);
    }
  }
}
