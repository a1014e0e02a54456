/** The lit Moon sprite: a copy of the Moon texture whose columns right of the
 * lit width are painted black.  Pixels are addressed `[row, column]`, so
 * `Length0` is the image height and `Length1` its width. */
module MoonImage {
  import opened Numerics

  newtype Byte = x: int | 0 <= x < 256

  datatype Pixel = Rgb(red: Byte, green: Byte, blue: Byte)

  const Black: Pixel := Rgb(0, 0, 0)

  /** `int(lit_ratio * width)`: how many columns, from the left, stay lit. */
  function LitWidth(litRatio: real, width: nat): (w: nat)
    requires 0.0 <= litRatio <= 1.0
    ensures w <= width
    ensures w as real <= litRatio * width as real < w as real + 1.0
  {
    var x := litRatio * width as real;
    ScaledWithin(litRatio, width as real);
    var n := Trunc(x);
    assert n as real <= x <= width as real;
    n
  }

  /** Scaling a non-negative amount by a ratio in `[0, 1]` stays between 0 and it. */
  lemma ScaledWithin(ratio: real, amount: real)
    requires 0.0 <= ratio <= 1.0 && 0.0 <= amount
    ensures 0.0 <= ratio * amount <= amount
  {
    MulNonNeg(ratio, amount);
    MulNonNeg(1.0 - ratio, amount);
    assert (1.0 - ratio) * amount == amount - ratio * amount;
  }

  /** A fully lit Moon keeps every column, a fully dark one none, and a
   * larger ratio never lights fewer columns. */
  lemma LitWidthMonotone(r1: real, r2: real, width: nat)
    requires 0.0 <= r1 <= r2 <= 1.0
    ensures LitWidth(r1, width) <= LitWidth(r2, width)
    ensures LitWidth(1.0, width) == width && LitWidth(0.0, width) == 0
  {
    var x1, x2 := r1 * width as real, r2 * width as real;
    assert x1 <= x2 by {
      MulNonNeg(r2 - r1, width as real);
      assert (r2 - r1) * width as real == x2 - x1;
    }
    var w1, w2 := LitWidth(r1, width), LitWidth(r2, width);
    assert w1 as real <= x1 && x2 < w2 as real + 1.0;
  }

  /** `moon_texture.copy()`: a fresh image with the same size and pixels. */
  method CopyImage(src: array2<Pixel>) returns (dst: array2<Pixel>)
    ensures fresh(dst)
    ensures dst.Length0 == src.Length0 && dst.Length1 == src.Length1
    ensures forall r, c :: 0 <= r < src.Length0 && 0 <= c < src.Length1 ==> dst[r, c] == src[r, c]
  {
    dst := new Pixel[src.Length0, src.Length1];
    var r := 0;
    while r < src.Length0
      invariant 0 <= r <= src.Length0
      invariant forall i, c :: 0 <= i < r && 0 <= c < src.Length1 ==> dst[i, c] == src[i, c]
    {
      var c := 0;
      while c < src.Length1
        invariant 0 <= c <= src.Length1
        invariant forall i, j :: 0 <= i < r && 0 <= j < src.Length1 ==> dst[i, j] == src[i, j]
        invariant forall j :: 0 <= j < c ==> dst[r, j] == src[r, j]
      {
        dst[r, c] := src[r, c];
        c := c + 1;
      }
      r := r + 1;
    }
  }

  /** `draw.rectangle([from, 0, width, height], fill="black")`: every pixel in a
   * column at or right of `from` becomes black (the rectangle is clipped to
   * the image); every other pixel keeps its value. */
  method ShadeFrom(img: array2<Pixel>, from: nat)
    modifies img
    ensures forall r, c :: 0 <= r < img.Length0 && 0 <= c < img.Length1 && from <= c ==>
      img[r, c] == Black
    ensures forall r, c :: 0 <= r < img.Length0 && 0 <= c < img.Length1 && c < from ==>
      img[r, c] == old(img[r, c])
  {
    var r := 0;
    while r < img.Length0
      invariant 0 <= r <= img.Length0
      invariant forall i, c :: 0 <= i < r && 0 <= c < img.Length1 ==>
        img[i, c] == if from <= c then Black else old(img[i, c])
      invariant forall i, c :: r <= i < img.Length0 && 0 <= c < img.Length1 ==>
        img[i, c] == old(img[i, c])
    {
      var c := from;
      while c < img.Length1
        invariant from <= c
        invariant forall i, j :: 0 <= i < r && 0 <= j < img.Length1 ==>
          img[i, j] == if from <= j then Black else old(img[i, j])
        invariant forall i, j :: r < i < img.Length0 && 0 <= j < img.Length1 ==>
          img[i, j] == old(img[i, j])
        invariant forall j :: 0 <= j < img.Length1 ==>
          img[r, j] == if from <= j < c then Black else old(img[r, j])
      {
        img[r, c] := Black;
        c := c + 1;
      }
      r := r + 1;
    }
  }

  /** `create_moon_image` with the lit ratio given: the texture is copied, the
   * copy is shaded from the lit width onward, and the texture itself is left
   * as it was. */
  method CreateMoonImage(texture: array2<Pixel>, litRatio: real) returns (img: array2<Pixel>)
    requires 0.0 <= litRatio <= 1.0
    ensures fresh(img) && unchanged(texture)
    ensures img.Length0 == texture.Length0 && img.Length1 == texture.Length1
    ensures forall r, c :: 0 <= r < img.Length0 && 0 <= c < img.Length1 ==>
      (c < LitWidth(litRatio, img.Length1) ==> img[r, c] == texture[r, c]) &&
      (LitWidth(litRatio, img.Length1) <= c ==> img[r, c] == Black)
  {
    img := CopyImage(texture);
    var litWidth := LitWidth(litRatio, texture.Length1);
    ShadeFrom(img, litWidth);
  }
}
