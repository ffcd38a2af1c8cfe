/**
 * The state of to_schem's loop (main.py:64-88) and the lemmas that carry it
 * from pixel to pixel, from column to column, and to Encode's result.
 */
module LoopStates {
  import opened Wrappers
  import opened Colors
  import opened Images
  import opened Sorting
  import opened Schematics
  import opened Scan
  import opened Encoder

  /** palette_blocks, the Palette compound and the indices dictionary. */
  type State = (seq<string>, seq<PaletteTag>, map<int, int>)

  /** One pass of the loop body for block name c at key k. */
  function Visit(st: State, c: string, k: int): State {
    var (blocks, palette, indices) := st;
    var blocks' := if c in blocks then blocks else blocks + [c];
    var palette' := if c in blocks then palette else palette + [PaletteTag(Namespace + c, IndexOf(blocks', c))];
    (blocks', palette', indices[k := IndexOf(blocks', c)])
  }

  /**
   * Visit field by field: an unseen block goes to the end of palette_blocks
   * and gets the next palette value, and key k records the block's position.
   */
  lemma VisitFields(st: State, c: string, k: int)
    ensures var (blocks, palette, indices) := st;
      var (blocks', palette', indices') := Visit(st, c, k);
      && blocks' == (if c in blocks then blocks else blocks + [c])
      && palette' == (if c in blocks then palette else palette + [PaletteTag(Namespace + c, |blocks|)])
      && indices'.Keys == indices.Keys + {k}
      && (forall k' :: k' in indices && k' != k ==> indices'[k'] == indices[k'])
      && indices'[k] < |blocks'| && blocks'[indices'[k]] == c
      && (c !in blocks ==> indices'[k] == |blocks|)
  {
    if c !in st.0 {
      IndexOfLast(st.0, c);
    }
  }

  /**
   * The state of to_schem's loop when the scan reaches (x, z): palette_blocks,
   * the Palette compound and the indices dictionary hold what the visited
   * pixels put there. With an empty block.json nothing is visited.
   */
  ghost predicate LoopState(img: Image, table: Table, x: nat, z: nat, st: State)
  {
    && Visiting(img, x, z)
    && if CanScan(img, table) then
         st == StateAt(NameGrid(img, table), img.width, img.length, x, z)
       else
         x == 0 && z == 0 && st == ([], [], map[])
  }

  /** (x, z) is a point the scan of a well-formed image reaches. */
  predicate Visiting(img: Image, x: nat, z: nat) {
    WellFormed(img) && x <= img.width && z <= img.length && (x < img.width || z == 0)
  }

  /** The state once the scan of g reaches (x, z). */
  function StateAt(g: seq<seq<string>>, w: nat, l: nat, x: nat, z: nat): State
    requires Reached(g, w, l, x, z)
  {
    var blocks := Dedup(ScanTo(g, w, l, x, z));
    (blocks, PaletteTags(blocks), IndicesTo(g, w, l, x, z))
  }

  /** One pass of the inner loop body keeps the loop state. */
  lemma PixelStep(img: Image, table: Table, x: nat, z: nat, st: State)
    requires LoopState(img, table, x, z, st)
    requires x < img.width && z < img.length && |table| > 0
    ensures LoopState(img, table, x, z + 1,
                      Visit(st, NearestName(table, Pixel(img, x, z)), Key(img.width, img.length, x, z)))
  {
    var g := NameGrid(img, table);
    assert g[z][x] == NearestName(table, Pixel(img, x, z));
    GridStep(g, img.width, img.length, x, z);
  }

  /** Visiting cell (x, z) of the grid moves the state one pixel on. */
  lemma GridStep(g: seq<seq<string>>, w: nat, l: nat, x: nat, z: nat)
    requires Reached(g, w, l, x, z) && x < w && z < l
    ensures Reached(g, w, l, x, z + 1)
    ensures StateAt(g, w, l, x, z + 1) == Visit(StateAt(g, w, l, x, z), g[z][x], Key(w, l, x, z))
  {
    var c, blocks := g[z][x], Dedup(ScanTo(g, w, l, x, z));
    IndicesToSnoc(g, w, l, x, z + 1);
    var blocks' := Dedup(ScanTo(g, w, l, x, z + 1));
    if c !in blocks {
      IndexOfLast(blocks, c);
      PaletteTagsSnoc(blocks, c);
    }
    assert PaletteTags(blocks') == Visit(StateAt(g, w, l, x, z), c, Key(w, l, x, z)).1;
  }

  /** Finishing column x is starting column x + 1. */
  lemma ColumnStep(img: Image, table: Table, x: nat, st: State)
    requires x < img.width && (|table| > 0 || img.length == 0)
    requires LoopState(img, table, x, img.length, st)
    ensures LoopState(img, table, x + 1, 0, st)
  {
  }

  /** What the code after the loop computes from the final loop state is Encode's result. */
  lemma FinishScan(img: Image, table: Table, st: State)
    requires LoopState(img, table, img.width, 0, st)
    ensures var (blocks, palette, indices) := st;
      var n := 1 * img.width * img.length;
      && Within(indices.Keys, n, 2 * n)
      && var bytes := ToByteArray(SortedValues(indices, n, 2 * n));
         Encode(img, table) ==
           if bytes.Err? then Err(ByteOutOfRange)
           else Ok(Schematic(FormatVersion, img.width, SchematicHeight, img.length, TargetDataVersion,
                             |blocks|, palette, bytes.value))
  {
    ScanDone(NameGrid(img, table), img.width, img.length);
  }

  lemma PaletteTagsSnoc(s: seq<string>, c: string)
    ensures PaletteTags(s + [c]) == PaletteTags(s) + [PaletteTag(Namespace + c, |s|)]
  {
  }
}
