/**
 * What to_schem (main.py:40-101) returns, defined on values: Encode is the
 * reference definition of the output, written per pixel. Writer.ToSchem is
 * the loop of the source, proved to produce exactly Encode's result.
 */
module Encoder {
  import opened Wrappers
  import opened Colors
  import opened Images
  import opened Sorting
  import opened Schematics
  import opened Scan

  /** The two exceptions to_schem can raise. */
  datatype EncodeError =
    | EmptyTable      // min() of an empty block.json, at the first pixel
    | ByteOutOfRange  // bytearray() given a palette index of 256 or more

  /** min() is called on a non-empty table, or not called at all. */
  predicate CanScan(img: Image, table: Table) {
    |table| > 0 || img.width == 0 || img.length == 0
  }

  /** The name `closest` gets at every pixel: g[z][x] for pixel (x, z). */
  function NameGrid(img: Image, table: Table): (g: seq<seq<string>>)
    requires WellFormed(img) && CanScan(img, table)
    ensures Shaped(g, img.width, img.length)
  {
    seq(img.length, z requires 0 <= z < img.length =>
      seq(img.width, x requires 0 <= x < img.width => NearestName(table, Pixel(img, x, z))))
  }

  /** palette_blocks after the scan. */
  function Blocks(img: Image, table: Table): seq<string>
    requires WellFormed(img) && CanScan(img, table)
  {
    Dedup(ScanNames(NameGrid(img, table), img.width, img.length))
  }

  /** The palette index for every linear position, before the byte conversion. */
  function IndexData(img: Image, table: Table): (r: seq<int>)
    requires WellFormed(img) && CanScan(img, table)
    ensures |r| == Area(img)
  {
    Layout(NameGrid(img, table), img.width, img.length)
  }

  /** bytearray(xs): fails unless every value is in range(0, 256). */
  function ToByteArray(xs: seq<int>): (r: Result<seq<Byte>, EncodeError>)
    ensures r.Ok? <==> forall i :: 0 <= i < |xs| ==> 0 <= xs[i] < 256
    ensures r.Err? ==> r.error == ByteOutOfRange
    ensures r.Ok? ==> |r.value| == |xs| && forall i :: 0 <= i < |xs| ==> r.value[i] == xs[i]
  {
    if forall i | 0 <= i < |xs| :: 0 <= xs[i] < 256 then
      Ok(seq(|xs|, i requires 0 <= i < |xs| => xs[i] as Byte))
    else
      Err(ByteOutOfRange)
  }

  /** The schematic to_schem returns, or the exception it raises. */
  function Encode(img: Image, table: Table): Result<Schematic, EncodeError>
    requires WellFormed(img)
  {
    if !CanScan(img, table) then Err(EmptyTable)
    else
      var blocks := Blocks(img, table);
      match ToByteArray(IndexData(img, table))
      case Err(e) => Err(e)
      case Ok(bytes) =>
        Ok(Schematic(FormatVersion, img.width, SchematicHeight, img.length, TargetDataVersion,
                     |blocks|, PaletteTags(blocks), bytes))
  }
}
