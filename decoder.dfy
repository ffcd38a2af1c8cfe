/**
 * to_image (main.py:104-118): schematic to image. Every step is a
 * comprehension; the exceptions it can raise become DecodeError values.
 */
module Decoder {
  import opened Wrappers
  import opened Colors
  import opened Images
  import opened Text
  import opened Schematics

  /** The exceptions to_image can raise. */
  datatype DecodeError =
    | NegativeSize              // Image.new with a negative Width or Length
    | UnknownBlock(name: string) // blockjson[name] raised KeyError
    | MissingIndex(index: int)   // palette_dict[b] raised KeyError
    | TooManyData               // putdata given more values than pixels

  /** t.replace('minecraft:', ''). */
  function StripNamespace(key: string): string {
    RemoveAll(key, Namespace)
  }

  /** The palette key written for `name` reads back as `name` when `name` holds no "minecraft:". */
  lemma StripNamespaceRoundTrip(name: string)
    requires Free(name, Namespace)
    ensures StripNamespace(Namespace + name) == name
  {
    RemoveAllPrefixed(name, Namespace);
  }

  /** block.json has a colour for the block this palette tag names. */
  predicate Known(table: Table, tag: PaletteTag) {
    Lookup(table, StripNamespace(tag.key)).Some?
  }

  /** Tag j is named `key`. */
  predicate NamedAt(tags: seq<PaletteTag>, j: nat, key: string) {
    j < |tags| && tags[j].key == key
  }

  /**
   * The position of the first tag named `key`, or |tags| when there is none:
   * indexing a compound by name, nbtin['Palette'][t], finds that tag.
   */
  function FirstNamed(tags: seq<PaletteTag>, key: string): (r: nat)
    ensures r <= |tags|
    ensures r < |tags| ==> NamedAt(tags, r, key)
    ensures forall j :: 0 <= j < r ==> !NamedAt(tags, j, key)
    decreases |tags|
  {
    if tags == [] then 0
    else if tags[0].key == key then 0
    else
      var r := FirstNamed(tags[1..], key);
      assert forall j :: 0 < j <= r ==> (NamedAt(tags, j, key) <==> NamedAt(tags[1..], j - 1, key));
      1 + r
  }

  /** nbtin['Palette'][t].value for the name t of tag i: the value of the first tag of that name. */
  function NamedValue(tags: seq<PaletteTag>, i: nat): int
    requires i < |tags|
  {
    assert NamedAt(tags, i, tags[i].key);
    tags[FirstNamed(tags, tags[i].key)].value
  }

  /** Appending a tag does not change which tag an existing name finds. */
  lemma NamedValueSnoc(tags: seq<PaletteTag>, i: nat)
    requires i < |tags| - 1
    ensures NamedValue(tags, i) == NamedValue(tags[..|tags| - 1], i)
  {
    var init, k := tags[..|tags| - 1], tags[i].key;
    var f, f' := FirstNamed(tags, k), FirstNamed(init, k);
    assert NamedAt(tags, i, k) && NamedAt(init, i, k);
    assert NamedAt(tags, f', k);
    assert NamedAt(init, f, k);
  }

  /** The keys palette_dict gets: the named value of every tag (PaletteValuesHas, PaletteValuesFrom). */
  function PaletteValues(tags: seq<PaletteTag>): set<int>
    decreases |tags|
  {
    if tags == [] then {} else PaletteValues(tags[..|tags| - 1]) + {NamedValue(tags, |tags| - 1)}
  }

  /** The named value of every tag is in PaletteValues. */
  lemma {:induction false} PaletteValuesHas(tags: seq<PaletteTag>, i: nat)
    requires i < |tags|
    ensures NamedValue(tags, i) in PaletteValues(tags)
    decreases |tags|
  {
    if i < |tags| - 1 {
      NamedValueSnoc(tags, i);
      PaletteValuesHas(tags[..|tags| - 1], i);
    }
  }

  /** Every element of PaletteValues is the named value of some tag. */
  lemma {:induction false} PaletteValuesFrom(tags: seq<PaletteTag>, v: int)
    requires v in PaletteValues(tags)
    ensures exists i :: 0 <= i < |tags| && NamedValue(tags, i) == v
    decreases |tags|
  {
    var init := tags[..|tags| - 1];
    if v != NamedValue(tags, |tags| - 1) {
      PaletteValuesFrom(init, v);
      var i :| 0 <= i < |init| && NamedValue(init, i) == v;
      NamedValueSnoc(tags, i);
    }
  }

  /**
   * palette_dict (main.py:112-113): for every tag name t, in tag order,
   * nbtin['Palette'][t].value maps to the colour of t's block. The first
   * unknown block is the one reported (PaletteColorsFirstError) and, when
   * two names give the same value, the later one wins (PaletteColorsLast).
   */
  function PaletteColors(tags: seq<PaletteTag>, table: Table): (r: Result<map<int, Rgba>, DecodeError>)
    ensures r.Ok? <==> forall i :: 0 <= i < |tags| ==> Known(table, tags[i])
    ensures r.Ok? ==> r.value.Keys == PaletteValues(tags)
    ensures r.Err? ==> r.error.UnknownBlock?
    decreases |tags|
  {
    if tags == [] then Ok(map[])
    else
      var init, t := tags[..|tags| - 1], tags[|tags| - 1];
      assert forall i :: 0 <= i < |init| ==> init[i] == tags[i];
      match PaletteColors(init, table)
      case Err(e) => Err(e)
      case Ok(m) =>
        match Lookup(table, StripNamespace(t.key))
        case None => Err(UnknownBlock(StripNamespace(t.key)))
        case Some(c) => Ok(m[NamedValue(tags, |tags| - 1) := c])
  }

  /** The error reported is the KeyError of the first tag whose block block.json lacks. */
  lemma {:induction false} PaletteColorsFirstError(tags: seq<PaletteTag>, table: Table)
    requires PaletteColors(tags, table).Err?
    ensures exists i ::
      && 0 <= i < |tags| && !Known(table, tags[i])
      && (forall j :: 0 <= j < i ==> Known(table, tags[j]))
      && PaletteColors(tags, table).error == UnknownBlock(StripNamespace(tags[i].key))
    decreases |tags|
  {
    var init, t := tags[..|tags| - 1], tags[|tags| - 1];
    assert forall k :: 0 <= k < |init| ==> init[k] == tags[k];
    if PaletteColors(init, table).Err? {
      assert PaletteColors(tags, table) == PaletteColors(init, table);
      PaletteColorsFirstError(init, table);
      var i :| && 0 <= i < |init| && !Known(table, init[i])
               && (forall j :: 0 <= j < i ==> Known(table, init[j]))
               && PaletteColors(init, table).error == UnknownBlock(StripNamespace(init[i].key));
      assert tags[i] == init[i];
    } else {
      assert PaletteColors(tags, table) == Err(UnknownBlock(StripNamespace(t.key)));
      assert forall j :: 0 <= j < |init| ==> Known(table, tags[j]);
    }
  }

  /** A tag whose named value no later tag shares decides that value's colour. */
  lemma {:induction false} PaletteColorsLast(tags: seq<PaletteTag>, table: Table, i: nat)
    requires PaletteColors(tags, table).Ok? && i < |tags|
    requires forall j :: i < j < |tags| ==> NamedValue(tags, j) != NamedValue(tags, i)
    ensures NamedValue(tags, i) in PaletteColors(tags, table).value
    ensures PaletteColors(tags, table).value[NamedValue(tags, i)] == Lookup(table, StripNamespace(tags[i].key)).value
    decreases |tags|
  {
    PaletteValuesHas(tags, i);
    var init, t := tags[..|tags| - 1], tags[|tags| - 1];
    assert forall k :: 0 <= k < |init| ==> init[k] == tags[k];
    var m := PaletteColors(init, table).value;
    var v := NamedValue(tags, |tags| - 1);
    assert PaletteColors(tags, table).value == m[v := Lookup(table, StripNamespace(t.key)).value];
    if i < |init| {
      NamedValueSnoc(tags, i);
      forall j | i < j < |init| ensures NamedValue(init, j) != NamedValue(init, i) {
        NamedValueSnoc(tags, j);
      }
      PaletteColorsLast(init, table, i);
    }
  }

  /**
   * [tuple(palette_dict[b]) for b in BlockData] (main.py:116): the colour of
   * every index, or the first index palette_dict lacks (PixelDataFirstError).
   */
  function PixelData(data: seq<Byte>, colors: map<int, Rgba>): (r: Result<seq<Rgba>, DecodeError>)
    ensures r.Ok? <==> forall i :: 0 <= i < |data| ==> data[i] in colors
    ensures r.Ok? ==> |r.value| == |data| && forall i :: 0 <= i < |data| ==> r.value[i] == colors[data[i]]
    ensures r.Err? ==> r.error.MissingIndex?
    decreases |data|
  {
    if data == [] then Ok([])
    else
      var init, b := data[..|data| - 1], data[|data| - 1];
      assert forall i :: 0 <= i < |init| ==> init[i] == data[i];
      match PixelData(init, colors)
      case Err(e) => Err(e)
      case Ok(p) => if b in colors then Ok(p + [colors[b]]) else Err(MissingIndex(b))
  }

  /** The error reported is the KeyError of the first index palette_dict lacks. */
  lemma {:induction false} PixelDataFirstError(data: seq<Byte>, colors: map<int, Rgba>)
    requires PixelData(data, colors).Err?
    ensures exists i ::
      && 0 <= i < |data| && data[i] !in colors
      && (forall j :: 0 <= j < i ==> data[j] in colors)
      && PixelData(data, colors).error == MissingIndex(data[i])
    decreases |data|
  {
    var init := data[..|data| - 1];
    assert forall k :: 0 <= k < |init| ==> init[k] == data[k];
    if PixelData(init, colors).Err? {
      PixelDataFirstError(init, colors);
      var i :| && 0 <= i < |init| && init[i] !in colors
               && (forall j :: 0 <= j < i ==> init[j] in colors)
               && PixelData(init, colors).error == MissingIndex(init[i]);
      assert data[i] == init[i];
    } else {
      assert data[|init|] !in colors;
    }
  }

  /** to_image(s) with block.json's content passed in as `table`. */
  function ToImage(s: Schematic, table: Table): (r: Result<Image, DecodeError>)
    ensures r.Ok? ==> WellFormed(r.value) && r.value.width == s.width && r.value.length == s.length
  {
    if s.width < 0 || s.length < 0 then Err(NegativeSize)
    else
      match PaletteColors(s.palette, table)
      case Err(e) => Err(e)
      case Ok(colors) =>
        match PixelData(s.blockData, colors)
        case Err(e) => Err(e)
        case Ok(pixels) =>
          match PutData(s.width, s.length, pixels)
          case Err(_) => Err(DecodeError.TooManyData)
          case Ok(img) => Ok(img)
  }

  /**
   * to_image succeeds exactly when the size is non-negative, block.json
   * knows every palette block, every BlockData value is a palette value, and
   * there are no more values than pixels.
   */
  lemma ToImageSucceeds(s: Schematic, table: Table)
    ensures ToImage(s, table).Ok? <==>
      && s.width >= 0 && s.length >= 0
      && (forall i :: 0 <= i < |s.palette| ==> Known(table, s.palette[i]))
      && (forall i :: 0 <= i < |s.blockData| ==> s.blockData[i] in PaletteValues(s.palette))
      && |s.blockData| <= s.width * s.length
  {
    if s.width >= 0 && s.length >= 0 && PaletteColors(s.palette, table).Ok? {
      var colors := PaletteColors(s.palette, table).value;
      assert forall i :: 0 <= i < |s.blockData| ==> (s.blockData[i] in colors <==> s.blockData[i] in PaletteValues(s.palette));
    }
  }

  /**
   * Which exception to_image raises: Image.new's first, then the first
   * unknown block of the palette comprehension, then the first index
   * missing from palette_dict, then putdata's.
   */
  lemma ToImageErrors(s: Schematic, table: Table)
    requires ToImage(s, table).Err?
    ensures var e, sized := ToImage(s, table).error, s.width >= 0 && s.length >= 0;
      && (e == NegativeSize <==> !sized)
      && (e.UnknownBlock? ==> sized && exists i :: 0 <= i < |s.palette| && !Known(table, s.palette[i]))
      && (e.MissingIndex? ==> sized && (forall i :: 0 <= i < |s.palette| ==> Known(table, s.palette[i]))
                              && exists i :: 0 <= i < |s.blockData| && s.blockData[i] !in PaletteValues(s.palette))
      && (e == DecodeError.TooManyData ==> sized && (forall i :: 0 <= i < |s.palette| ==> Known(table, s.palette[i]))
                                           && (forall i :: 0 <= i < |s.blockData| ==> s.blockData[i] in PaletteValues(s.palette))
                                           && |s.blockData| > s.width * s.length)
  {
    if s.width >= 0 && s.length >= 0 && PaletteColors(s.palette, table).Ok? {
      var colors := PaletteColors(s.palette, table).value;
      assert forall i :: 0 <= i < |s.blockData| ==> (s.blockData[i] in colors <==> s.blockData[i] in PaletteValues(s.palette));
      if PixelData(s.blockData, colors).Err? {
        PixelDataFirstError(s.blockData, colors);
      }
    }
  }

  /**
   * Two palette tags with one name: nbtin['Palette'][t] finds the first, so
   * palette_dict never gets the second tag's value and BlockData [1] fails.
   */
  lemma DuplicateNameMissingIndex()
    ensures var s := Schematic(2, 1, 1, 1, 0, 2, [PaletteTag("minecraft:stone", 0), PaletteTag("minecraft:stone", 1)], [1]);
      ToImage(s, [Entry("stone", Rgba(0, 0, 0, 255))]) == Err(MissingIndex(1))
  {
    var tags := [PaletteTag("minecraft:stone", 0), PaletteTag("minecraft:stone", 1)];
    StripNamespaceRoundTrip("stone");
    assert Namespace + "stone" == "minecraft:stone";
    assert NamedAt(tags, 0, "minecraft:stone");
    assert NamedValue(tags, 1) == 0;
  }

  /**
   * Pixel (x, z) of a decoded image has the colour palette_dict gives BlockData
   * entry x + z * W, and the fill colour where BlockData is shorter.
   */
  lemma ToImagePixel(s: Schematic, table: Table, x: nat, z: nat)
    requires ToImage(s, table).Ok? && x < s.width && z < s.length
    ensures var j := x + z * s.width;
      && PaletteColors(s.palette, table).Ok?
      && (j < |s.blockData| ==> s.blockData[j] in PaletteColors(s.palette, table).value)
      && Pixel(ToImage(s, table).value, x, z) ==
           if j < |s.blockData| then PaletteColors(s.palette, table).value[s.blockData[j]] else Transparent
  {
    var colors := PaletteColors(s.palette, table).value;
    var pixels := PixelData(s.blockData, colors).value;
    var img := PutData(s.width, s.length, pixels).value;
    assert ToImage(s, table).value == img;
    var j := x + z * s.width;
    assert Pixel(img, x, z) == if j < |pixels| then pixels[j] else Transparent;
  }

  /** In the Palette compound for distinct blocks, the tag named after block i holds i. */
  lemma NamedValueOfBlocks(blocks: seq<string>, i: nat)
    requires forall j, k :: 0 <= j < k < |blocks| ==> blocks[j] != blocks[k]
    requires i < |blocks|
    ensures NamedValue(PaletteTags(blocks), i) == i
  {
    var tags := PaletteTags(blocks);
    forall j | 0 <= j < i ensures !NamedAt(tags, j, tags[i].key) {
      assert (Namespace + blocks[j])[|Namespace|..] == blocks[j];
      assert (Namespace + blocks[i])[|Namespace|..] == blocks[i];
    }
    assert NamedAt(tags, i, tags[i].key);
  }

  /** The values palette_dict gets from the Palette for the distinct `blocks` are its indices. */
  lemma PaletteTagsValues(blocks: seq<string>)
    requires forall j, k :: 0 <= j < k < |blocks| ==> blocks[j] != blocks[k]
    ensures forall i :: 0 <= i < |blocks| ==> NamedValue(PaletteTags(blocks), i) == i
    ensures forall v :: v in PaletteValues(PaletteTags(blocks)) <==> 0 <= v < |blocks|
  {
    var tags := PaletteTags(blocks);
    forall i | 0 <= i < |blocks| ensures NamedValue(tags, i) == i {
      NamedValueOfBlocks(blocks, i);
    }
    forall v ensures v in PaletteValues(tags) <==> 0 <= v < |blocks| {
      if 0 <= v < |blocks| {
        PaletteValuesHas(tags, v);
      }
      if v in PaletteValues(tags) {
        PaletteValuesFrom(tags, v);
      }
    }
  }

  /**
   * The Palette compound to_schem writes for the distinct `blocks` decodes
   * to index i mapping to the colour of blocks[i], provided every block is
   * in block.json and holds no "minecraft:".
   */
  lemma DecodePalette(blocks: seq<string>, table: Table)
    requires forall j, k :: 0 <= j < k < |blocks| ==> blocks[j] != blocks[k]
    requires forall i :: 0 <= i < |blocks| ==> Free(blocks[i], Namespace) && Lookup(table, blocks[i]).Some?
    ensures var r := PaletteColors(PaletteTags(blocks), table);
      && r.Ok?
      && (forall v :: v in r.value <==> 0 <= v < |blocks|)
      && forall i :: 0 <= i < |blocks| ==> r.value[i] == Lookup(table, blocks[i]).value
  {
    var tags := PaletteTags(blocks);
    forall i | 0 <= i < |blocks| ensures StripNamespace(tags[i].key) == blocks[i] {
      StripNamespaceRoundTrip(blocks[i]);
    }
    PaletteTagsValues(blocks);
    forall i | 0 <= i < |blocks| ensures PaletteColors(tags, table).value[i] == Lookup(table, blocks[i]).value {
      PaletteColorsLast(tags, table, i);
    }
  }
}
