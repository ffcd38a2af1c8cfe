# schem-converter: a verified model of the image/schematic converter

schem-converter turns a picture into a flat Minecraft structure file (a
Sponge schematic) and back. Every pixel becomes the block whose average
texture colour, stored in `block.json`, is nearest to the pixel's RGBA
value. The blocks used form a palette. The structure stores one palette
index per pixel in its `BlockData` byte array.

This project models the three pieces of `main.py` that hold the logic.

- `to_schem` (main.py:40-101) is modelled twice:
  - `Encoder.Encode` is a reference definition on values: the nearest
    block per pixel, the de-duplicated palette, the index layout and the
    header.
  - `Writer.ToSchem` is the source's loop over the comprehension's
    coordinates, written as two nested loops in the same x-outer,
    z-inner order. It
    appends to `palette_blocks`, adds to the `Palette` compound and
    fills the `indices` dictionary. Its postcondition is
    `res == Encode(img, table)`, proved through the loop state of module
    `LoopStates`.
  - `EncoderProperties` states what `Encode` means: failure cases,
    header values, palette order and minimality, index range and the
    block at every pixel.
- `to_image` (main.py:104-118) is pure and is modelled as functions
  (`Decoder`):
  - the palette dictionary with the `minecraft:` prefix removed;
  - the lookup of every `BlockData` byte;
  - `putdata` into a fresh transparent image.
  - `RoundTrip` proves decode after encode: every pixel comes back as
    the `block.json` colour of its nearest block.
- `add_blocks` (main.py:18-37) is modelled in `BlockColors`:
  - the pixel-collecting loop, as a method;
  - the truncated per-channel mean;
  - the key made from the file name;
  - the dictionary update;
  - the loop over files, as a method proved equal to the recursive
    specification `AddAll`.

Module layout:
- `Wrappers`: Option and Result.
- `Colors`: RGBA, the colour table and nearest-block search.
- `Images`: the pixel grid and `putdata`.
- `Text`: `str.replace(pat, '')`.
- `Sorting`: `sorted()` over integer keys.
- `Scan`: the x-outer/z-inner scan, the palette list and the indices
  dictionary as functions.
- `Schematics`: the output record and its constants.
- `Encoder`, `LoopStates`, `Writer`, `EncoderProperties`: to_schem.
- `Decoder`, `RoundTrip`: to_image.
- `BlockColors`: add_blocks.

Modelling choices:
- `block.json` is an ordered sequence of (name, RGBA) entries, in the
  dictionary's key order. `Lookup` is `blockjson[name]`, with `None` for
  a `KeyError`.
- An image is `rows[z][x]`, so `getpixel((x, z))` is `Pixel(img, x, z)`.
- `math.dist` is replaced by the squared integer distance. On channels
  0..255 it orders entries exactly as the Euclidean distance does.
  Python's `min` keeps the first of equal keys, and the model does the
  same.
- `putdata` is taken as given: row-major, x fastest. Data shorter than
  the image leaves the remaining pixels transparent black. Data longer
  than the image is an error.
- Behaviour of the code a reader might not expect:
  - A zero-area image is not an error. The loop body never runs and
    `min()` is never called, so the result is an empty schematic.
  - An empty `block.json` is an error only when some pixel is visited.
  - A palette of more than 256 blocks is not silently wrapped:
    `bytearray()` raises `ValueError` for the index 256
    (`EncodeError.ByteOutOfRange`).
  - An empty `BlockData` is not an error in `to_image`.
  - `nbtin['Palette'][t]` finds the first tag named t. When two tags share
    a name, the second tag's own value is never read: its name finds the
    first tag's value.

## Model

| member | source | states |
|---|---|---|
| Colors.Distance2 | main.py:74 | `math.dist` as a squared integer distance; NearestIndexIsFirstMinimum compares entries by it |
| Colors.NearestIndex | main.py:74 | `min(blockjson, key=…)` as a position in block.json; its contract keeps the position in range, and NearestIndexIsFirstMinimum and FirstMinimumUnique say which entry it is |
| Colors.NearestName | main.py:74 | `closest`: the name of the entry NearestIndex picks |
| Colors.NearestIndexIsFirstMinimum | main.py:74 | the entry `min` picks is at least as near as every entry and strictly nearer than every entry before it (first minimum wins) |
| Colors.FirstMinimumUnique | main.py:74 | the first entry of least distance is unique, so the tie-break determines the choice |
| Colors.Lookup | main.py:112-113 | `blockjson[name]` fails exactly when no key equals name; a found colour belongs to an entry with that name |
| Colors.LookupEntry | main.py:112-113 | with distinct keys, looking up an entry's name yields that entry's colour |
| Text.RemoveAll | main.py:33-34 | `str.replace(pat, '')`: drops the occurrences of pat left to right and never lengthens the string; RemoveAllFree and RemoveAllPrefixed describe it |
| Images.PutData | main.py:106-116 | `Image.new` + `putdata` succeeds exactly when the data fit; pixel (x, z) is datum x + z·W, or transparent when the data end earlier |
| Text.RemoveAllFree | main.py:33-34 | `replace(pat, '')` leaves a string without pat unchanged |
| Text.RemoveAllPrefixed | main.py:112-113 | `replace(pat, '')` on pat + s removes the leading pat |
| Sorting.SortedKeys | main.py:99 | `sorted(indices)` lists every key, only keys, strictly ascending |
| Sorting.SortedKeysUnique | main.py:99 | the ascending listing of a key set does not depend on the bounding interval chosen for it |
| Sorting.SortedIntervalShift | main.py:99 | adding the constant offset W·L to an interval of keys shifts the sorted listing position by position and does not reorder it |
| Scan.Dedup | main.py:76-77 | `palette_blocks` has no duplicates and holds exactly the names seen |
| Scan.DedupFirstSeen | main.py:68-77 | `palette_blocks` lists blocks in first-encounter order of the x-outer, z-inner scan |
| Scan.IndexOf | main.py:83 | `list.index` returns the first position holding the element |
| Scan.ScanNames | main.py:68 | the names of the pixels in the comprehension's x-outer, z-inner order; DedupFirstSeen orders the palette by it |
| Scan.Key | main.py:87-88 | the dictionary key x + z·W + 1·W·L of pixel (x, z); KeysDistinct and KeyBounds describe it |
| Scan.IndicesTo | main.py:87-88 | the `indices` dictionary when the scan reaches (x, z); IndicesToAt and ScanDone describe it |
| Scan.Layout | main.py:87-99 | the intended BlockData: W·L entries, entry x + z·W the palette position of pixel (x, z)'s block; ScanDone proves the sorted dictionary reads back as it |
| Scan.SortedValues | main.py:99 | `[indices[i] for i in sorted(indices)]`; SortedValuesOfInterval says what it reads back |
| Scan.KeysDistinct | main.py:87-88 | distinct pixels get distinct keys x + z·W + W·L |
| Scan.KeyBounds | main.py:87-88 | every key lies in [W·L, 2·W·L) |
| Scan.IndicesToAt | main.py:87-88 | at every point of the scan, each visited pixel's key maps to the position of its block in `palette_blocks` |
| Scan.ScanDone | main.py:87-99 | after the scan the keys are exactly [W·L, 2·W·L) and reading them in sorted order gives the layout |
| Scan.SortedValuesOfInterval | main.py:99 | a dictionary keyed by exactly n..2n-1 reads back in sorted key order as its values at n, n+1, … |
| Scan.LayoutAt | main.py:87-88 | the dictionary holds layout entry j under key W·L + j |
| Schematics.PaletteTags | main.py:82-83 | the Palette compound has one tag per palette block |
| Encoder.NameGrid | main.py:68-74 | `closest` of every pixel, as a W×L grid |
| Encoder.Blocks | main.py:76-77 | `palette_blocks` after the scan; BlocksExactlyUsed and DedupFirstSeen describe it |
| Encoder.Encode | main.py:40-101 | the reference value of to_schem; EncoderProperties describes it (EncodeFailures, EncodeSchematic, BlocksExactlyUsed, IndexDataAt) and Writer.ToSchem is proved to return it |
| Encoder.ToByteArray | main.py:99 | `bytearray(xs)` succeeds exactly when every value is in 0..255, keeps the values in order, and otherwise raises |
| Encoder.IndexData | main.py:99 | the index list has W·L entries |
| LoopStates.Visit | main.py:76-88 | one pass of the loop body for the block `closest` at key k; VisitFields spells it out and GridStep ties it to the scan |
| LoopStates.GridStep | main.py:74-88 | one loop body moves the scan state from one pixel to the next: palette list, Palette compound and dictionary |
| LoopStates.VisitFields | main.py:76-88 | one loop body appends an unseen block to `palette_blocks` and to the Palette compound with the next value, adds the pixel's key, keeps every other key, and maps the key to the block's position |
| LoopStates.PixelStep | main.py:70-88 | the inner loop body keeps the loop state for the pixel's nearest block |
| LoopStates.FinishScan | main.py:91-101 | from the final loop state, the code after the loop computes `Encode`'s result |
| Writer.ToSchem | main.py:40-101 | to_schem returns exactly `Encode(img, table)`: the schematic, `EmptyTable` or `ByteOutOfRange` |
| Writer.ScanColumn | main.py:68-88 | the inner loop over z for one x raises exactly when a pixel is visited with an empty table, and otherwise leaves the loop state of the next column |
| Writer.RecordBlock | main.py:76-88 | the loop body once closest is known performs Visit, whose effect field by field is VisitFields |
| Writer.WriteSchematic | main.py:89-101 | the header, palette and sorted byte array after the loop are `Encode`'s result |
| EncoderProperties.BlocksExactlyUsed | main.py:74-77 | the palette has no duplicates and holds exactly the blocks nearest to some pixel |
| EncoderProperties.PixelOf | main.py:74-77 | every palette block is nearest to some pixel |
| EncoderProperties.InBlocks | main.py:74-77 | the block nearest to any pixel is in the palette |
| EncoderProperties.IndexDataAt | main.py:87-88 | entry x + z·W of the index list is the palette position of the block nearest to pixel (x, z) |
| EncoderProperties.IndexDataInRange | main.py:87-88 | every index lies in [0, len(palette_blocks)) |
| EncoderProperties.ByteArrayAccepts | main.py:99 | `bytearray()` accepts the indices exactly when the palette has at most 256 blocks |
| EncoderProperties.EncodeFailures | main.py:74-99 | to_schem fails with `EmptyTable` exactly when a pixel meets an empty table; otherwise it fails exactly when the palette exceeds 256 blocks, with `ByteOutOfRange` |
| EncoderProperties.EncodeSchematic | main.py:57-99 | Version 2, Width W, Height 1, Length L, DataVersion 2230; PaletteMax = len(palette) ≤ 256; palette[i] maps "minecraft:" + block i to i; W·L block indices, each below PaletteMax |
| EncoderProperties.EncodePixel | main.py:82-99 | BlockData at x + z·W names, through the palette, "minecraft:" + the block nearest to pixel (x, z) |
| EncoderProperties.PaletteKeysDistinct | main.py:82 | the palette keys are distinct, so no palette entry overwrites another |
| Decoder.StripNamespace | main.py:112-113 | `t.replace('minecraft:', '')`; StripNamespaceRoundTrip says it undoes the prefix to_schem adds |
| Decoder.StripNamespaceRoundTrip | main.py:112-113 | removing "minecraft:" from "minecraft:" + name gives name back when name does not contain "minecraft:" |
| Decoder.FirstNamed | main.py:112 | indexing the Palette compound by name finds the first tag of that name, or none |
| Decoder.NamedValue | main.py:112 | `nbtin['Palette'][t].value` for the name t of tag i: the value of the tag FirstNamed finds |
| Decoder.NamedValueSnoc | main.py:112 | a tag added after tag i does not change the value that tag i's name finds |
| Decoder.PaletteValues | main.py:112-113 | the keys `palette_dict` gets; PaletteValuesHas and PaletteValuesFrom describe it |
| Decoder.PaletteValuesHas | main.py:112-113 | the value found under every tag's name is a key of the palette dictionary |
| Decoder.PaletteValuesFrom | main.py:112-113 | every key of the palette dictionary is the value found under some tag's name |
| Decoder.PaletteColors | main.py:112-113 | the palette dictionary is built exactly when every stripped palette key is in block.json; its keys are the values found under the tags' names; failure is an unknown block |
| Decoder.PaletteColorsFirstError | main.py:112-113 | the `KeyError` names the first palette key missing from block.json |
| Decoder.PaletteColorsLast | main.py:112-113 | a value found under a tag's name maps to that tag's block colour when no later tag's name finds the same value |
| Decoder.PixelData | main.py:116 | every byte is looked up, in order, exactly when all bytes are dictionary keys; otherwise it fails on a missing index |
| Decoder.PixelDataFirstError | main.py:116 | the failure names the first byte without a palette entry |
| Decoder.ToImage | main.py:104-118 | a decoded image is well formed and has the schematic's width and length |
| Decoder.ToImageSucceeds | main.py:104-118 | to_image succeeds exactly when the size is non-negative, all palette blocks are known, all bytes have palette entries and the data fit the image |
| Decoder.ToImageErrors | main.py:106-116 | which error to_image raises, checked in source order: negative size, unknown block, missing index, too many data |
| Decoder.ToImagePixel | main.py:112-116 | pixel (x, z) is the palette colour of byte x + z·W, or transparent past the end of BlockData |
| Decoder.DuplicateNameMissingIndex | main.py:112-116 | with two tags named minecraft:stone valued 0 and 1, BlockData [1] raises a `KeyError` for 1 |
| Decoder.NamedValueOfBlocks | main.py:82-83 | in the Palette written for distinct blocks, the name of tag i finds value i |
| Decoder.PaletteTagsValues | main.py:112-113 | the palette dictionary of the Palette written for distinct blocks has exactly the keys 0..n-1 |
| Decoder.DecodePalette | main.py:112-113 | a palette written by to_schem for distinct blocks decodes to the dictionary 0..n-1 mapping i to block i's colour |
| RoundTrip.BlocksInTable | main.py:74 | every palette block is a block.json key without "minecraft:" in it |
| RoundTrip.PaletteDecodes | main.py:112-113 | the palette of a successful to_schem decodes to each palette block's colour |
| RoundTrip.EncodedIndex | main.py:87-99 | BlockData at x + z·W is the palette position of the block nearest to pixel (x, z) |
| RoundTrip.DecodedPixel | main.py:112-116 | to_image paints pixel (x, z) with the colour of the block whose position BlockData holds there |
| RoundTrip.DecodeEncodeOk | main.py:40-118 | the schematic to_schem writes decodes without error to an image of the same size |
| RoundTrip.DecodeEncode | main.py:40-118 | pixel (x, z) of to_image(to_schem(img)) is the block.json colour of the block nearest to pixel (x, z) of img |
| BlockColors.Coords | main.py:25 | the coordinate list has W·L entries in x-outer, z-inner order |
| BlockColors.TexturePixels | main.py:24-27 | `getpixel` of every coordinate the comprehension lists, in Coords order; its contract gives W·L entries, and CollectPixels is proved to compute it |
| BlockColors.CollectPixels | main.py:24-27 | the loop collects getpixel of every coordinate, in the comprehension's order |
| BlockColors.ChannelSum | main.py:29-32 | a channel sum lies between 0 and 255 times the pixel count |
| BlockColors.Mean | main.py:29-32 | `int(sum / len)` on a non-negative sum is the truncated mean m, with m·n ≤ sum < m·n + n |
| BlockColors.MeanUnique | main.py:29-32 | the truncated mean is the only value within those bounds |
| BlockColors.MeanIsChannel | main.py:29-32 | the mean of channel values is a channel value |
| BlockColors.Average | main.py:29-32 | no average exactly for a texture without pixels (division by zero); otherwise each channel is the truncated mean of that channel |
| BlockColors.AverageUniform | main.py:29-32 | a texture of one colour averages to that colour |
| BlockColors.TextureKey | main.py:33-34 | `file.replace('.png', '').replace('_top', '')`; TextureKeyOfName describes it |
| BlockColors.TextureKeyOfName | main.py:33-34 | for a block name without '.' and "_top", the files name, name.png, name_top and name_top.png all store under name |
| BlockColors.SetEntry | main.py:34 | `jdata[key] = colour` keeps every existing key in place and appends a new key at the end |
| BlockColors.SetEntryLookup | main.py:34 | after the assignment, key maps to the new colour and every other key to its old colour |
| BlockColors.SetEntryDistinct | main.py:34 | the assignment keeps the keys distinct |
| BlockColors.AddBlocks | main.py:18-37 | the loop over files computes `AddAll`: each texture's average stored under its key, stopping at the first empty texture with the earlier entries kept |
| BlockColors.AddAll | main.py:18-37 | the reference value of add_blocks; AddBlocks is proved to compute it, and AddAllDistinct, AddAllLast and AddAllUntouched describe it |
| BlockColors.AddAllDistinct | main.py:18-37 | add_blocks keeps the block.json keys distinct |
| BlockColors.AddAllUntouched | main.py:18-37 | after a run without error, a key that no file produces keeps its colour |
| BlockColors.AddAllLast | main.py:18-37 | after a run without error, a key holds the average of the last file that produces it |

## Left out

- File and library I/O is not modelled: `read_nbt`, `write_nbt` and its `print`, `json.load`/`json.dump` of block.json, `Image.open`, `convert('RGBA')` and the `__main__` driver. The pixels, the table and the schematic are parameters and results instead.
- The NBT wire format is not modelled. The schematic is a plain record of header integers, a palette list and a byte sequence. The limit that `TAG_Short` places on Width and Length is not modelled either.
- JSON turns the stored `(r, g, b, a)` tuple into a list. The model keeps four channels either way.
- add_blocks reloads and rewrites block.json in every iteration. The model passes the table from one iteration to the next, which has the same effect when nothing else writes the file. The texture is passed in already decoded, and an unreadable file is out of scope.
- Colors.NearestIndex: `math.dist` is a float. The model compares squared integer distances, which order entries exactly as the true distances do. Float rounding is not modelled.
- BlockColors.Mean: `int(sum / len)` goes through a float. The model uses exact integer division on the non-negative sum. The two differ only when a sum is too large for a double to hold exactly.
- Decoder.FirstNamed: the `nbt` library is not part of this model. Indexing a `TAG_Compound` by name is taken to return the first tag of that name.
- Images.PutData: PIL's fill order is taken as given (row-major, x fastest), not derived.
- Sorting.SortedKeys: `sorted()` is modelled for keys inside a known bounded interval, which covers every dictionary to_schem builds.
- EncoderProperties.EncodePixel: the layout is stated per pixel. There is no lemma quantified over all pixels at once. RoundTrip.DecodeEncode is stated per pixel in the same way.
