/**
 * Pixel grids as PIL hands them over, and the linear index formula of the
 * schematic layout.
 */
module Images {
  import opened Wrappers
  import opened Colors

  /**
   * A W by L image: rows[z][x] is getpixel((x, z)). The fields are PIL's
   * im.size[0] (width) and im.size[1] (length).
   */
  datatype Image = Image(width: nat, length: nat, rows: seq<seq<Rgba>>)

  predicate WellFormed(img: Image) {
    |img.rows| == img.length && forall z :: 0 <= z < |img.rows| ==> |img.rows[z]| == img.width
  }

  function Area(img: Image): nat {
    img.width * img.length
  }

  /** getpixel((x, z)). */
  function Pixel(img: Image, x: nat, z: nat): Rgba
    requires WellFormed(img) && x < img.width && z < img.length
  {
    img.rows[z][x]
  }

  /** Every in-grid coordinate has its linear position x + z * w inside [0, w * l). */
  lemma LinearInRange(w: nat, l: nat, x: nat, z: nat)
    requires x < w && z < l
    ensures x + z * w < w * l
  {
    assert z * w <= (l - 1) * w;
  }

  /** Every linear position inside [0, w * l) comes from one in-grid coordinate. */
  lemma LinearCoords(w: nat, l: nat, j: int)
    requires 0 <= j < w * l
    ensures w > 0 && l > 0
    ensures 0 <= j % w < w && 0 <= j / w < l && j == j % w + (j / w) * w
  {
  }

  /** The linear position determines the coordinate: x + z * w is injective on the grid. */
  lemma LinearInverse(w: nat, x: nat, z: nat)
    requires x < w
    ensures (x + z * w) % w == x && (x + z * w) / w == z
  {
    DivModUnique(x + z * w, w, z, x);
  }

  /** Euclidean division has one quotient and one remainder. */
  lemma DivModUnique(n: int, w: int, q: int, r: int)
    requires w > 0 && 0 <= r < w && n == q * w + r
    ensures n / w == q && n % w == r
  {
    var q0, r0 := n / w, n % w;
    assert (q - q0) * w == r0 - r;
    MulSign(q - q0, w);
  }

  lemma MulSign(d: int, w: int)
    requires w > 0
    ensures d > 0 ==> d * w >= w
    ensures d < 0 ==> d * w <= -w
  {
    if d > 0 {
      MulAtLeast(d, w);
    } else if d < 0 {
      MulAtLeast(-d, w);
      assert d * w == -((-d) * w);
    }
  }

  lemma MulAtLeast(d: nat, w: nat)
    requires d >= 1
    ensures d * w >= w
    decreases d
  {
    if d > 1 {
      MulAtLeast(d - 1, w);
      assert d * w == (d - 1) * w + w;
    }
  }

  /** Image.new('RGBA', size) fills with transparent black. */
  const Transparent := Rgba(0, 0, 0, 0)

  /** putdata rejects more data than the image has pixels. */
  datatype PutDataError = TooManyData

  /**
   * Image.new('RGBA', (w, l)) followed by putdata(data). The fill order is
   * taken as given (row-major, x fastest): the value at linear position
   * x + z * w lands on pixel (x, z); pixels past the end of data keep the
   * fill colour.
   */
  function PutData(w: nat, l: nat, data: seq<Rgba>): (r: Result<Image, PutDataError>)
    ensures r.Ok? <==> |data| <= w * l
    ensures r.Ok? ==> WellFormed(r.value) && r.value.width == w && r.value.length == l
    ensures r.Ok? ==> forall x, z :: 0 <= x < w && 0 <= z < l ==>
      Pixel(r.value, x, z) == if x + z * w < |data| then data[x + z * w] else Transparent
  {
    if |data| > w * l then Err(TooManyData)
    else
      Ok(Image(w, l, seq(l, z => seq(w, x => if 0 <= x + z * w < |data| then data[x + z * w] else Transparent))))
  }
}
