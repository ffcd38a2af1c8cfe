/**
 * What to_schem's output means, stated about the reference definition
 * Encoder.Encode (which Encoder.ToSchem is proved to compute): when it
 * fails and why, the fixed header, the palette, and the block at every
 * pixel.
 */
module EncoderProperties {
  import opened Wrappers
  import opened Colors
  import opened Images
  import opened Schematics
  import opened Scan
  import opened Encoder

  /** closest at pixel (x, z) is the block name b. */
  predicate Uses(img: Image, table: Table, x: nat, z: nat, b: string) {
    && WellFormed(img) && x < img.width && z < img.length && |table| > 0
    && NearestName(table, Pixel(img, x, z)) == b
  }

  /** The name grid holds closest for every pixel. */
  lemma NameGridAt(img: Image, table: Table, x: nat, z: nat)
    requires WellFormed(img) && CanScan(img, table) && x < img.width && z < img.length
    ensures |table| > 0 && NameGrid(img, table)[z][x] == NearestName(table, Pixel(img, x, z))
  {
  }

  /** Every palette block is closest to some pixel. */
  lemma PixelOf(img: Image, table: Table, b: string) returns (x: nat, z: nat)
    requires WellFormed(img) && CanScan(img, table) && b in Blocks(img, table)
    ensures Uses(img, table, x, z, b)
  {
    x, z := ScanToFrom(NameGrid(img, table), img.width, img.length, img.width, 0, b);
    NameGridAt(img, table, x, z);
  }

  /** The block closest to any pixel is in the palette. */
  lemma InBlocks(img: Image, table: Table, x: nat, z: nat)
    requires WellFormed(img) && |table| > 0 && x < img.width && z < img.length
    ensures NearestName(table, Pixel(img, x, z)) in Blocks(img, table)
  {
    NameGridAt(img, table, x, z);
    ScanToHas(NameGrid(img, table), img.width, img.length, img.width, 0, x, z);
  }

  /**
   * The palette holds exactly the blocks some pixel is closest to, each
   * once: no block is missing and none is there without a pixel.
   */
  lemma BlocksExactlyUsed(img: Image, table: Table)
    requires WellFormed(img) && CanScan(img, table)
    ensures NoDuplicates(Blocks(img, table))
    ensures forall b :: b in Blocks(img, table) <==>
      exists x: nat, z: nat :: Uses(img, table, x, z, b)
  {
    forall b ensures b in Blocks(img, table) <==> exists x: nat, z: nat :: Uses(img, table, x, z, b) {
      if b in Blocks(img, table) {
        var x, z := PixelOf(img, table, b);
      }
      if exists x: nat, z: nat :: Uses(img, table, x, z, b) {
        var x: nat, z: nat :| Uses(img, table, x, z, b);
        InBlocks(img, table, x, z);
      }
    }
  }

  /**
   * Position x + z * W of the index data holds the palette position of the
   * block closest to pixel (x, z).
   */
  lemma IndexDataAt(img: Image, table: Table, x: nat, z: nat)
    requires WellFormed(img) && |table| > 0 && x < img.width && z < img.length
    ensures var j, c := x + z * img.width, NearestName(table, Pixel(img, x, z));
      && j < Area(img) && c in Blocks(img, table)
      && IndexData(img, table)[j] == IndexOf(Blocks(img, table), c)
  {
    var w, l, g := img.width, img.length, NameGrid(img, table);
    var j := x + z * w;
    LinearInRange(w, l, x, z);
    LinearInverse(w, x, z);
    NameGridAt(img, table, x, z);
    ScanToHas(g, w, l, w, 0, x, z);
    assert IndexData(img, table)[j] == IndexOf(Blocks(img, table), g[j / w][j % w]);
  }

  /** Every index lies in [0, len(palette_blocks)). */
  lemma IndexDataInRange(img: Image, table: Table)
    requires WellFormed(img) && CanScan(img, table)
    ensures forall j :: 0 <= j < |IndexData(img, table)| ==> 0 <= IndexData(img, table)[j] < |Blocks(img, table)|
  {
    var w, l, g := img.width, img.length, NameGrid(img, table);
    forall j | 0 <= j < |IndexData(img, table)|
      ensures 0 <= IndexData(img, table)[j] < |Blocks(img, table)|
    {
      LinearCoords(w, l, j);
      ScanToHas(g, w, l, w, 0, j % w, j / w);
    }
  }

  /** bytearray() accepts the index data exactly when the palette has at most 256 blocks. */
  lemma ByteArrayAccepts(img: Image, table: Table)
    requires WellFormed(img) && CanScan(img, table)
    ensures ToByteArray(IndexData(img, table)).Ok? <==> |Blocks(img, table)| <= 256
  {
    var blocks, data := Blocks(img, table), IndexData(img, table);
    IndexDataInRange(img, table);
    if |blocks| > 256 {
      var x, z := PixelOf(img, table, blocks[256]);
      IndexDataAt(img, table, x, z);
      IndexOfDistinct(blocks, 256);
      assert data[x + z * img.width] == 256;
    }
  }

  /**
   * to_schem fails in exactly two ways: min() of an empty block.json at the
   * first pixel, and bytearray() once the palette holds more than 256 blocks
   * (some pixel then has index 256).
   */
  lemma EncodeFailures(img: Image, table: Table)
    requires WellFormed(img)
    ensures !CanScan(img, table) ==> Encode(img, table) == Err(EmptyTable)
    ensures CanScan(img, table) ==>
      (Encode(img, table).Err? <==> |Blocks(img, table)| > 256)
      && (Encode(img, table).Err? ==> Encode(img, table).error == ByteOutOfRange)
  {
    if CanScan(img, table) {
      ByteArrayAccepts(img, table);
    }
  }

  /** The values Encode puts into a successful schematic. */
  lemma EncodeOk(img: Image, table: Table)
    requires WellFormed(img) && Encode(img, table).Ok?
    ensures CanScan(img, table)
    ensures var s, blocks, bytes := Encode(img, table).value, Blocks(img, table), ToByteArray(IndexData(img, table));
      && bytes.Ok?
      && s == Schematic(FormatVersion, img.width, SchematicHeight, img.length, TargetDataVersion,
                        |blocks|, PaletteTags(blocks), bytes.value)
  {
  }

  /**
   * A successful to_schem writes the fixed header, a palette mapping
   * "minecraft:" + palette_blocks[i] to i, PaletteMax equal to the palette's
   * size, and W * L block indices each below PaletteMax.
   */
  lemma EncodeSchematic(img: Image, table: Table)
    requires WellFormed(img) && Encode(img, table).Ok?
    ensures var s, blocks := Encode(img, table).value, Blocks(img, table);
      && s.version == 2 && s.width == img.width && s.height == 1
      && s.length == img.length && s.dataVersion == 2230
      && s.paletteMax == |s.palette| == |blocks| <= 256
      && (forall i :: 0 <= i < |s.palette| ==> s.palette[i] == PaletteTag(Namespace + blocks[i], i))
      && |s.blockData| == Area(img)
      && (forall j :: 0 <= j < |s.blockData| ==> s.blockData[j] < s.paletteMax)
  {
    EncodeOk(img, table);
    ByteArrayAccepts(img, table);
    IndexDataInRange(img, table);
  }

  /**
   * In a successful to_schem, position x + z * W of BlockData names, through
   * the palette, the block closest to pixel (x, z).
   */
  lemma EncodePixel(img: Image, table: Table, x: nat, z: nat)
    requires WellFormed(img) && Encode(img, table).Ok? && x < img.width && z < img.length
    ensures |table| > 0
    ensures var s := Encode(img, table).value;
      && x + z * img.width < |s.blockData|
      && s.blockData[x + z * img.width] < |s.palette|
      && s.palette[s.blockData[x + z * img.width]].key == Namespace + NearestName(table, Pixel(img, x, z))
  {
    EncodeOk(img, table);
    IndexDataAt(img, table, x, z);
    var blocks := Blocks(img, table);
    var c := NearestName(table, Pixel(img, x, z));
    assert PaletteTags(blocks)[IndexOf(blocks, c)].key == Namespace + c;
  }

  /** The Palette compound's keys are distinct, so no entry overwrites another. */
  lemma PaletteKeysDistinct(blocks: seq<string>)
    requires NoDuplicates(blocks)
    ensures forall i, j :: 0 <= i < j < |blocks| ==> PaletteTags(blocks)[i].key != PaletteTags(blocks)[j].key
  {
    forall i, j | 0 <= i < j < |blocks| ensures PaletteTags(blocks)[i].key != PaletteTags(blocks)[j].key {
      assert (Namespace + blocks[i])[|Namespace|..] == blocks[i];
      assert (Namespace + blocks[j])[|Namespace|..] == blocks[j];
    }
  }
}
