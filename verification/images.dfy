/**
 * The image grid: a row-major vector of pixels, the packing of a pixel into a
 * 32-bit RGBA word, sub-image extraction and the expansion of a decoded PNG
 * buffer to four channels.
 *
 * Channels are modelled as the bytes the game reads back from a pixel; the
 * float representation the source keeps in between is not part of this model.
 */
module Images {
  import opened Wrappers

  /** A pixel as its four 8-bit channels. */
  datatype Pixel = Pixel(red: bv8, green: bv8, blue: bv8, alpha: bv8)

  /** The value-initialised pixel a freshly sized image holds. */
  const Blank := Pixel(0, 0, 0, 0)

  /** The byte a channel value of 1.0 reads back as. */
  const Opaque: bv8 := 0xFF

  /** Packs the channels as red<<24 | green<<16 | blue<<8 | alpha. */
  function RGBA(p: Pixel): bv32
  {
    (p.red as bv32 << 24) | (p.green as bv32 << 16) | (p.blue as bv32 << 8) | p.alpha as bv32
  }

  /** Splits a word into channels with the shifts 24, 16, 8, 0 and the mask 0xFF. */
  function SetRGBA(w: bv32): Pixel
  {
    Pixel(((w >> 24) & 0xFF) as bv8, ((w >> 16) & 0xFF) as bv8,
          ((w >> 8) & 0xFF) as bv8, ((w >> 0) & 0xFF) as bv8)
  }

  /** Splitting a packed pixel gives back its channels. */
  lemma SetRGBAOfRGBA(p: Pixel)
    ensures SetRGBA(RGBA(p)) == p
  {
  }

  /** Packing the channels of a split word rebuilds the word. */
  lemma RGBAOfSetRGBA(w: bv32)
    ensures RGBA(SetRGBA(w)) == w
  {
  }

  /** The alpha channel sits in the low byte and the colour in the upper three. */
  lemma RGBAFields(p: Pixel)
    ensures RGBA(p) & 0xFF == p.alpha as bv32
    ensures RGBA(p) >> 8 == (p.red as bv32 << 16) | (p.green as bv32 << 8) | p.blue as bv32
  {
  }

  datatype Image = Image(width: nat, height: nat, pixels: seq<Pixel>)

  /** The pixel vector holds exactly width * height pixels. */
  predicate Valid(img: Image)
  {
    |img.pixels| == img.width * img.height
  }

  /** Row-major position of column x, row y in an image of the given width. */
  function Index(width: nat, x: nat, y: nat): nat
  {
    x + width * y
  }

  lemma IndexInRange(width: nat, height: nat, x: nat, y: nat)
    requires x < width && y < height
    ensures Index(width, x, y) < width * height
  {
    assert width * y + width <= width * height by {
      assert width * (y + 1) <= width * height;
    }
  }

  /** A positive multiple of a width is at least that width. */
  lemma {:induction false} MulAtLeast(width: nat, a: int)
    requires a >= 1
    ensures width * a >= width
  {
    if a > 1 {
      MulAtLeast(width, a - 1);
      assert width * a == width * (a - 1) + width;
    }
  }

  /** The row-major position determines the column and the row. */
  lemma IndexRoundTrip(width: nat, x: nat, y: nat)
    requires x < width
    ensures Index(width, x, y) % width == x
    ensures Index(width, x, y) / width == y
  {
    var k := Index(width, x, y);
    var q, r := k / width, k % width;
    assert k == width * q + r;
    assert width * (q - y) == x - r;
    if q - y >= 1 {
      MulAtLeast(width, q - y);
    } else if y - q >= 1 {
      MulAtLeast(width, y - q);
    }
  }

  /** Distinct cells occupy distinct positions of the pixel vector. */
  lemma IndexInjective(width: nat, x1: nat, y1: nat, x2: nat, y2: nat)
    requires x1 < width && x2 < width
    requires Index(width, x1, y1) == Index(width, x2, y2)
    ensures x1 == x2 && y1 == y2
  {
    IndexRoundTrip(width, x1, y1);
    IndexRoundTrip(width, x2, y2);
  }

  /** Image::At: the pixel at column x, row y. */
  function At(img: Image, x: nat, y: nat): Pixel
    requires Valid(img) && x < img.width && y < img.height
  {
    IndexInRange(img.width, img.height, x, y);
    img.pixels[Index(img.width, x, y)]
  }

  /** Image(width, height): a blank image of the given size. */
  function Sized(width: nat, height: nat): (img: Image)
    ensures Valid(img) && img.width == width && img.height == height
    ensures forall x: nat, y: nat :: x < width && y < height ==> At(img, x, y) == Blank
  {
    var img := Image(width, height, seq(width * height, _ => Blank));
    assert forall x: nat, y: nat :: x < width && y < height ==> At(img, x, y) == Blank by {
      forall x: nat, y: nat | x < width && y < height
        ensures At(img, x, y) == Blank
      {
        IndexInRange(width, height, x, y);
      }
    }
    img
  }

  /** The exceptions SubImage throws, in the order it checks for them. */
  datatype RangeError = XOutOfRange | YOutOfRange | XPlusWidth | YPlusHeight

  /** Image::SubImage: the w x h block whose top-left corner is (x, y). */
  function SubImage(img: Image, x: nat, y: nat, w: nat, h: nat): (r: Result<Image, RangeError>)
    requires Valid(img)
    ensures x >= img.width ==> r == Failure(XOutOfRange)
    ensures x < img.width && y >= img.height ==> r == Failure(YOutOfRange)
    ensures x < img.width && y < img.height && x + w > img.width ==> r == Failure(XPlusWidth)
    ensures x < img.width && y < img.height && x + w <= img.width && y + h > img.height
            ==> r == Failure(YPlusHeight)
    ensures r.Success? <==> x < img.width && y < img.height && x + w <= img.width && y + h <= img.height
    ensures r.Success? ==> Valid(r.value) && r.value.width == w && r.value.height == h
    ensures r.Success? ==> forall i: nat, j: nat :: i < w && j < h ==>
              At(r.value, i, j) == At(img, i + x, j + y)
  {
    if x >= img.width then Failure(XOutOfRange)
    else if y >= img.height then Failure(YOutOfRange)
    else if x + w > img.width then Failure(XPlusWidth)
    else if y + h > img.height then Failure(YPlusHeight)
    else
      var pixels := seq(w * h, k requires 0 <= k < w * h =>
        CellOf(k, w, h); At(img, k % w + x, k / w + y));
      var sub := Image(w, h, pixels);
      assert forall i: nat, j: nat :: i < w && j < h ==> At(sub, i, j) == At(img, i + x, j + y) by {
        forall i: nat, j: nat | i < w && j < h
          ensures At(sub, i, j) == At(img, i + x, j + y)
        {
          IndexInRange(w, h, i, j);
          IndexRoundTrip(w, i, j);
        }
      }
      Success(sub)
  }

  /** A position below w * h names a column below w and a row below h. */
  lemma CellOf(k: nat, w: nat, h: nat)
    requires k < w * h
    ensures w > 0 && k % w < w && k / w < h
  {
    assert w > 0;
    var q := k / w;
    assert k == w * q + k % w;
  }

  /** The whole of a non-empty image is a sub-image of itself. */
  lemma SubImageWhole(img: Image)
    requires Valid(img) && img.width > 0 && img.height > 0
    ensures SubImage(img, 0, 0, img.width, img.height) == Success(img)
  {
    var w, h := img.width, img.height;
    var r := SubImage(img, 0, 0, w, h);
    assert r.Success?;
    var sub := r.value;
    assert Valid(sub) && sub.width == w && sub.height == h;
    forall k | 0 <= k < |img.pixels|
      ensures sub.pixels[k] == img.pixels[k]
    {
      CellOf(k, w, h);
      var i, j := k % w, k / w;
      assert k == Index(w, i, j);
      assert At(sub, i + 0, j + 0) == At(img, i, j);
    }
    assert sub == img;
  }

  /** An image of width 0 has no sub-image, not even one of width 0. */
  lemma SubImageOfEmptyWidth(img: Image, x: nat, y: nat, w: nat, h: nat)
    requires Valid(img) && img.width == 0
    ensures SubImage(img, x, y, w, h) == Failure(XOutOfRange)
  {
  }

  /** The only decoded formats the reader accepts. */
  datatype DecodeError = InvalidChannelCount

  /**
   * The copy at the end of Image::_ReadStream: one pixel per width * height from
   * a decoded 8-bit buffer of 1 (grey), 3 (RGB) or 4 (RGBA) channels per pixel.
   */
  method ReadPixels(width: nat, height: nat, channels: nat, data: seq<bv8>)
      returns (r: Result<Image, DecodeError>)
    requires channels == 1 || channels == 3 || channels == 4 ==> |data| >= width * height * channels
    ensures !(channels == 1 || channels == 3 || channels == 4) <==> r == Failure(InvalidChannelCount)
    ensures r.Success? ==> Valid(r.value) && r.value.width == width && r.value.height == height
    ensures r.Success? && channels == 1 ==> forall k :: 0 <= k < width * height ==>
              r.value.pixels[k] == Pixel(data[k], data[k], data[k], Opaque)
    ensures r.Success? && channels == 3 ==> forall k :: 0 <= k < width * height ==>
              r.value.pixels[k] == Pixel(data[3 * k], data[3 * k + 1], data[3 * k + 2], Opaque)
    ensures r.Success? && channels == 4 ==> forall k :: 0 <= k < width * height ==>
              r.value.pixels[k] == Pixel(data[4 * k], data[4 * k + 1], data[4 * k + 2], data[4 * k + 3])
  {
    if !(channels == 1 || channels == 3 || channels == 4) {
      return Failure(InvalidChannelCount);
    }
    var count := width * height;
    var pixels: seq<Pixel> := [];
    var k := 0;
    while k < count
      invariant 0 <= k <= count && |pixels| == k
      invariant channels == 1 ==> forall m :: 0 <= m < k ==>
                  pixels[m] == Pixel(data[m], data[m], data[m], Opaque)
      invariant channels == 3 ==> forall m :: 0 <= m < k ==>
                  pixels[m] == Pixel(data[3 * m], data[3 * m + 1], data[3 * m + 2], Opaque)
      invariant channels == 4 ==> forall m :: 0 <= m < k ==>
                  pixels[m] == Pixel(data[4 * m], data[4 * m + 1], data[4 * m + 2], data[4 * m + 3])
    {
      var p;
      if channels == 1 {
        p := Pixel(data[k], data[k], data[k], Opaque);
      } else if channels == 3 {
        p := Pixel(data[3 * k], data[3 * k + 1], data[3 * k + 2], Opaque);
      } else {
        p := Pixel(data[4 * k], data[4 * k + 1], data[4 * k + 2], data[4 * k + 3]);
      }
      pixels := pixels + [p];
      k := k + 1;
    }
    return Success(Image(width, height, pixels));
  }
}
