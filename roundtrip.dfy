/**
 * decode after encode: to_image(to_schem(img)) paints every pixel with the
 * block.json colour of the block nearest to the original pixel.
 */
module RoundTrip {
  import opened Wrappers
  import opened Colors
  import opened Images
  import opened Text
  import opened Schematics
  import opened Scan
  import opened Encoder
  import opened EncoderProperties
  import opened Decoder

  /**
   * block.json as to_image needs it: distinct keys, none holding "minecraft:".
   * The keys of block.json carry no namespace; the round trip needs this only
   * of the blocks that reach the palette, but those can be any of its keys.
   */
  predicate Decodable(table: Table) {
    && DistinctNames(table)
    && forall i :: 0 <= i < |table| ==> Free(table[i].name, Namespace)
  }

  /** Every palette block is a key of block.json, and so free of "minecraft:". */
  lemma BlocksInTable(img: Image, table: Table)
    requires WellFormed(img) && CanScan(img, table) && Decodable(table)
    ensures forall i :: 0 <= i < |Blocks(img, table)| ==>
      Free(Blocks(img, table)[i], Namespace) && Lookup(table, Blocks(img, table)[i]).Some?
  {
    var blocks := Blocks(img, table);
    forall i | 0 <= i < |blocks| ensures Free(blocks[i], Namespace) && Lookup(table, blocks[i]).Some? {
      var x, z := PixelOf(img, table, blocks[i]);
      var k := NearestIndex(table, Pixel(img, x, z));
      assert table[k].name == blocks[i];
      LookupEntry(table, k);
    }
  }

  /** The schematic to_schem writes decodes without error, to an image of the same size. */
  lemma DecodeEncodeOk(img: Image, table: Table)
    requires WellFormed(img) && Decodable(table) && Encode(img, table).Ok?
    ensures var r := ToImage(Encode(img, table).value, table);
      r.Ok? && r.value.width == img.width && r.value.length == img.length
  {
    var s, blocks := Encode(img, table).value, Blocks(img, table);
    EncodeOk(img, table);
    EncodeSchematic(img, table);
    BlocksInTable(img, table);
    assert NoDuplicates(blocks);
    DecodePalette(blocks, table);
    assert s.palette == PaletteTags(blocks);
    ToImageSucceeds(s, table);
  }

  /** The palette of a successful to_schem decodes to the block.json colour of each palette block. */
  lemma PaletteDecodes(img: Image, table: Table)
    requires WellFormed(img) && Decodable(table) && Encode(img, table).Ok?
    ensures PaletteColors(Encode(img, table).value.palette, table).Ok?
    ensures var colors, blocks := PaletteColors(Encode(img, table).value.palette, table).value, Blocks(img, table);
      forall i :: 0 <= i < |blocks| ==>
        && Lookup(table, blocks[i]).Some? && i in colors
        && colors[i] == Lookup(table, blocks[i]).value
  {
    EncodeOk(img, table);
    BlocksInTable(img, table);
    assert NoDuplicates(Blocks(img, table));
    DecodePalette(Blocks(img, table), table);
  }

  /** Position x + z * W of a successful to_schem's BlockData is the palette position of the nearest block. */
  lemma EncodedIndex(img: Image, table: Table, x: nat, z: nat)
    requires WellFormed(img) && Encode(img, table).Ok? && x < img.width && z < img.length
    ensures |table| > 0
    ensures var s, blocks, c := Encode(img, table).value, Blocks(img, table), NearestName(table, Pixel(img, x, z));
      && x + z * img.width < |s.blockData| && c in blocks
      && s.blockData[x + z * img.width] == IndexOf(blocks, c)
  {
    EncodeOk(img, table);
    IndexDataAt(img, table, x, z);
  }

  /**
   * to_image paints pixel (x, z) with the colour of the block whose palette
   * position BlockData holds there.
   */
  lemma DecodedPixel(s: Schematic, table: Table, blocks: seq<string>, x: nat, z: nat, c: string)
    requires ToImage(s, table).Ok? && x < s.width && z < s.length && c in blocks
    requires x + z * s.width < |s.blockData| && s.blockData[x + z * s.width] == IndexOf(blocks, c)
    requires PaletteColors(s.palette, table).Ok?
    requires var colors := PaletteColors(s.palette, table).value;
      forall i :: 0 <= i < |blocks| ==>
        && Lookup(table, blocks[i]).Some? && i in colors
        && colors[i] == Lookup(table, blocks[i]).value
    ensures Lookup(table, c) == Some(Pixel(ToImage(s, table).value, x, z))
  {
    ToImagePixel(s, table, x, z);
  }

  /**
   * Pixel (x, z) of to_image(to_schem(img)) is the colour block.json gives
   * the block nearest to pixel (x, z) of img.
   */
  lemma DecodeEncode(img: Image, table: Table, x: nat, z: nat)
    requires WellFormed(img) && Decodable(table) && Encode(img, table).Ok?
    requires x < img.width && z < img.length
    ensures |table| > 0
    ensures var r := ToImage(Encode(img, table).value, table);
      && r.Ok? && r.value.width == img.width && r.value.length == img.length
      && Pixel(r.value, x, z) == NearestColor(table, Pixel(img, x, z))
  {
    DecodeEncodeOk(img, table);
    var s, blocks := Encode(img, table).value, Blocks(img, table);
    var p := Pixel(img, x, z);
    EncodedIndex(img, table, x, z);
    PaletteDecodes(img, table);
    DecodedPixel(s, table, blocks, x, z, NearestName(table, p));
    LookupEntry(table, NearestIndex(table, p));
  }
}
