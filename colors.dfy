/**
 * Colours, the block colour table and the nearest-block search of main.py.
 *
 * The table is the content of block.json: an ordered list of (block name, RGBA)
 * pairs, in the key order json.load gives the dictionary.
 */
module Colors {
  import opened Wrappers

  /** One 8-bit channel, as PIL delivers it after convert('RGBA'). */
  type Channel = c: int | 0 <= c < 256

  datatype Rgba = Rgba(r: Channel, g: Channel, b: Channel, a: Channel)

  /** One key of block.json and its colour. */
  datatype Entry = Entry(name: string, color: Rgba)

  type Table = seq<Entry>

  /** Dictionary keys are distinct. */
  predicate DistinctNames(table: Table) {
    forall i, j :: 0 <= i < j < |table| ==> table[i].name != table[j].name
  }

  /**
   * The square of math.dist(p, q). Squaring is strictly monotone on the
   * non-negative reals, so comparing squares orders the entries exactly as
   * comparing the Euclidean distances does.
   */
  function Distance2(p: Rgba, q: Rgba): int {
    (p.r - q.r) * (p.r - q.r) + (p.g - q.g) * (p.g - q.g)
      + (p.b - q.b) * (p.b - q.b) + (p.a - q.a) * (p.a - q.a)
  }

  /**
   * min(blockjson, key=lambda k: math.dist(rgb, blockjson[k])): the position of
   * the entry nearest to p. Python's min keeps the first of equal keys, so the
   * result is the first entry of least distance (NearestIndexIsFirstMinimum).
   */
  function NearestIndex(table: Table, p: Rgba): (i: nat)
    requires |table| > 0
    ensures i < |table|
    decreases |table|
  {
    if |table| == 1 then 0
    else
      var k := NearestIndex(table[..|table| - 1], p);
      if Distance2(p, table[|table| - 1].color) < Distance2(p, table[k].color) then |table| - 1 else k
  }

  /** Entry i is at least as near to p as every entry, and strictly nearer than every entry before it. */
  predicate IsFirstMinimum(table: Table, p: Rgba, i: nat) {
    && i < |table|
    && (forall j :: 0 <= j < |table| ==> Distance2(p, table[i].color) <= Distance2(p, table[j].color))
    && (forall j :: 0 <= j < i ==> Distance2(p, table[j].color) > Distance2(p, table[i].color))
  }

  /** min() picks the first entry of least distance. */
  lemma {:induction false} NearestIndexIsFirstMinimum(table: Table, p: Rgba)
    requires |table| > 0
    ensures IsFirstMinimum(table, p, NearestIndex(table, p))
    decreases |table|
  {
    if |table| > 1 {
      var init := table[..|table| - 1];
      NearestIndexIsFirstMinimum(init, p);
      assert forall j :: 0 <= j < |init| ==> init[j] == table[j];
    }
  }

  /** There is only one first entry of least distance. */
  lemma FirstMinimumUnique(table: Table, p: Rgba, i: nat, i': nat)
    requires IsFirstMinimum(table, p, i) && IsFirstMinimum(table, p, i')
    ensures i == i'
  {
    var d, d' := Distance2(p, table[i].color), Distance2(p, table[i'].color);
    assert i < i' ==> d > d';
    assert i' < i ==> d' > d;
  }

  /** The name of the nearest block: `closest` at main.py:74. */
  function NearestName(table: Table, p: Rgba): string
    requires |table| > 0
  {
    table[NearestIndex(table, p)].name
  }

  /** blockjson[name]: the colour stored under `name`, or None for a KeyError. */
  function Lookup(table: Table, name: string): (r: Option<Rgba>)
    ensures r.None? <==> forall i :: 0 <= i < |table| ==> table[i].name != name
    ensures r.Some? ==> exists i :: 0 <= i < |table| && table[i] == Entry(name, r.value)
  {
    if table == [] then None
    else if table[0].name == name then Some(table[0].color)
    else Lookup(table[1..], name)
  }

  /** With distinct keys, looking an entry's name up yields that entry's colour. */
  lemma {:induction false} LookupEntry(table: Table, i: nat)
    requires DistinctNames(table)
    requires i < |table|
    ensures Lookup(table, table[i].name) == Some(table[i].color)
  {
    if i > 0 {
      assert table[0].name != table[i].name;
      assert table[1..][i - 1] == table[i];
      LookupEntry(table[1..], i - 1);
    }
  }

  /** The nearest colour of p, as the decoder paints it back. */
  function NearestColor(table: Table, p: Rgba): Rgba
    requires |table| > 0
  {
    table[NearestIndex(table, p)].color
  }
}
