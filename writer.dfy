/**
 * to_schem (main.py:40-101) with its state updated in place: the loop over
 * the comprehension's coordinates, written as two nested loops in the same
 * x-outer, z-inner order, then the schematic built from the loop state. ToSchem is
 * proved to return exactly Encoder.Encode's result.
 */
module Writer {
  import opened Wrappers
  import opened Colors
  import opened Images
  import opened Sorting
  import opened Schematics
  import opened Scan
  import opened Encoder
  import opened LoopStates

  /** to_schem(img) with block.json's content passed in as `table`. */
  method ToSchem(img: Image, table: Table) returns (res: Result<Schematic, EncodeError>)
    requires WellFormed(img)
    ensures res == Encode(img, table)
  {
    var w, l := img.width, img.length;
    var paletteBlocks: seq<string> := [];
    var indices: map<int, int> := map[];
    var palette: seq<PaletteTag> := [];
    var x := 0;
    while x < w
      invariant x <= w
      invariant LoopState(img, table, x, 0, (paletteBlocks, palette, indices))
    {
      var found;
      found, paletteBlocks, palette, indices := ScanColumn(img, table, x, paletteBlocks, palette, indices);
      if !found {
        return Err(EmptyTable);
      }
      ColumnStep(img, table, x, (paletteBlocks, palette, indices));
      x := x + 1;
    }

    res := WriteSchematic(img, table, paletteBlocks, palette, indices);
  }

  /**
   * The code after the loops: BlockData is the indices in key order, as
   * bytes, beside the fixed header and the palette.
   */
  method WriteSchematic(img: Image, table: Table, paletteBlocks: seq<string>, palette: seq<PaletteTag>, indices: map<int, int>)
    returns (res: Result<Schematic, EncodeError>)
    requires LoopState(img, table, img.width, 0, (paletteBlocks, palette, indices))
    ensures res == Encode(img, table)
  {
    var version, width, height, length, dataVersion := FormatVersion, img.width, SchematicHeight, img.length, TargetDataVersion;
    var n := 1 * img.width * img.length;
    FinishScan(img, table, (paletteBlocks, palette, indices));
    var bytes := ToByteArray(SortedValues(indices, n, 2 * n));
    if bytes.Err? {
      return Err(ByteOutOfRange);
    }
    res := Ok(Schematic(version, width, height, length, dataVersion,
                        |paletteBlocks|, palette, bytes.value));
  }

  /**
   * The inner loop of to_schem, over z for one x. It reports false where
   * min() raises: a pixel is reached and block.json is empty.
   */
  method ScanColumn(img: Image, table: Table, x: nat,
                    blocks: seq<string>, palette: seq<PaletteTag>, indices: map<int, int>)
    returns (found: bool, blocks': seq<string>, palette': seq<PaletteTag>, indices': map<int, int>)
    requires x < img.width
    requires LoopState(img, table, x, 0, (blocks, palette, indices))
    ensures found <==> |table| > 0 || img.length == 0
    ensures found ==> LoopState(img, table, x, img.length, (blocks', palette', indices'))
  {
    var w, l := img.width, img.length;
    blocks', palette', indices' := blocks, palette, indices;
    var z := 0;
    while z < l
      invariant z <= l
      invariant LoopState(img, table, x, z, (blocks', palette', indices'))
    {
      if |table| == 0 {
        return false, blocks', palette', indices';
      }
      var closest := NearestName(table, Pixel(img, x, z));
      ghost var before := (blocks', palette', indices');
      blocks', palette', indices' := RecordBlock(blocks', palette', indices', closest, Key(w, l, x, z));
      PixelStep(img, table, x, z, before);
      z := z + 1;
    }
    found := true;
  }

  /**
   * The loop body once closest is known: append an unseen block to
   * palette_blocks and to the Palette compound, then record its position
   * under the pixel's key.
   */
  method RecordBlock(blocks: seq<string>, palette: seq<PaletteTag>, indices: map<int, int>, closest: string, k: int)
    returns (blocks': seq<string>, palette': seq<PaletteTag>, indices': map<int, int>)
    ensures (blocks', palette', indices') == Visit((blocks, palette, indices), closest, k)
  {
    blocks', palette' := blocks, palette;
    if closest !in blocks' {
      blocks' := blocks' + [closest];
      palette' := palette' + [PaletteTag(Namespace + closest, IndexOf(blocks', closest))];
    }
    indices' := indices[k := IndexOf(blocks', closest)];
  }
}
