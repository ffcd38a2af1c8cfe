/**
 * The schematic written by to_schem and read by to_image, as a plain record
 * of its NBT tags (the binary NBT encoding itself is not modelled).
 */
module Schematics {

  /** One element of a bytearray. */
  type Byte = b: int | 0 <= b < 256

  /** Namespace prefix of every palette key. */
  const Namespace: string := "minecraft:"

  /** Fixed header values written by to_schem. */
  const FormatVersion: int := 2
  const SchematicHeight: int := 1
  const TargetDataVersion: int := 2230

  /** One entry of the Palette compound: a TAG_Int named `key`. */
  datatype PaletteTag = PaletteTag(key: string, value: int)

  /**
   * The tags of the Schematic compound, in the order to_schem appends them:
   * Version, Width, Height, Length, DataVersion, PaletteMax, Palette, BlockData.
   */
  datatype Schematic = Schematic(
    version: int,
    width: int,
    height: int,
    length: int,
    dataVersion: int,
    paletteMax: int,
    palette: seq<PaletteTag>,
    blockData: seq<Byte>)

  /** The Palette compound built for the block list `blocks`. */
  function PaletteTags(blocks: seq<string>): (r: seq<PaletteTag>)
    ensures |r| == |blocks|
  {
    seq(|blocks|, i requires 0 <= i < |blocks| => PaletteTag(Namespace + blocks[i], i))
  }
}
