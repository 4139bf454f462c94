/**
 * The image geometry shared by the older evaluators (src/eval.rs, src/img.rs): images as a
 * width, a height and rows of pixels, the transparent canvas, placing one image on another,
 * centring, the names of PNG-sequence entries, and the image and SVG libraries as collaborators.
 */
module Imaging {
  import opened Wrappers
  import opened Numerals
  import opened Io

  /** An RGBA pixel; the components are not interpreted here. */
  datatype Pixel = Rgba(red: nat, green: nat, blue: nat, alpha: nat)

  const Transparent: Pixel := Rgba(0, 0, 0, 0)

  datatype Bitmap = Bitmap(width: nat, height: nat, rows: seq<seq<Pixel>>)

  predicate WellShaped(b: Bitmap) {
    |b.rows| == b.height && forall y :: 0 <= y < |b.rows| ==> |b.rows[y]| == b.width
  }

  /** A bitmap whose rows agree with its dimensions. */
  type Image = b: Bitmap | WellShaped(b) witness Bitmap(0, 0, [])

  /** The resampling filters of the image library. */
  datatype FilterType = Nearest | Triangle | CatmullRom | Gaussian | Lanczos3

  predicate FitsIn(img: Image, w: nat, h: nat) {
    img.width <= w && img.height <= h
  }

  /** `DynamicImage::new_rgba8(w, h)`: a `w`×`h` canvas of transparent pixels. */
  function Blank(w: nat, h: nat): (img: Image)
    ensures img.width == w && img.height == h
    ensures forall y, x :: 0 <= y < h && 0 <= x < w ==> img.rows[y][x] == Transparent
  {
    Bitmap(w, h, seq(h, y => seq(w, x => Transparent)))
  }

  /** Whether canvas position `(x, y)` is covered by `top` placed with its corner at `(dx, dy)`. */
  predicate Covers(top: Image, dx: nat, dy: nat, x: nat, y: nat) {
    dx <= x < dx + top.width && dy <= y < dy + top.height
  }

  /**
   * `imageops::overlay(bottom, top, dx, dy)`: `top` replaces the pixels of `bottom` that it
   * covers, clipped to `bottom`; everything else of `bottom` is kept.
   */
  function Overlay(bottom: Image, top: Image, dx: nat, dy: nat): (img: Image)
    ensures img.width == bottom.width && img.height == bottom.height
    ensures forall y, x :: 0 <= y < img.height && 0 <= x < img.width && Covers(top, dx, dy, x, y) ==>
      img.rows[y][x] == top.rows[y - dy][x - dx]
    ensures forall y, x :: 0 <= y < img.height && 0 <= x < img.width && !Covers(top, dx, dy, x, y) ==>
      img.rows[y][x] == bottom.rows[y][x]
  {
    Bitmap(bottom.width, bottom.height,
      seq(bottom.height, y requires 0 <= y < bottom.height =>
        seq(bottom.width, x requires 0 <= x < bottom.width =>
          if Covers(top, dx, dy, x, y) then top.rows[y - dy][x - dx] else bottom.rows[y][x])))
  }

  /** The offset that centres a length `inner` inside a length `outer`, rounded down. */
  function Margin(outer: nat, inner: nat): nat
    requires inner <= outer
  {
    (outer - inner) / 2
  }

  /** `src` on a transparent `w`×`h` canvas at the floor-centred offsets. */
  function Centred(src: Image, w: nat, h: nat): (img: Image)
    requires FitsIn(src, w, h)
    ensures img.width == w && img.height == h
  {
    Overlay(Blank(w, h), src, Margin(w, src.width), Margin(h, src.height))
  }

  /** Centring leaves equal margins, the far one larger by at most one when the slack is odd. */
  lemma MarginBalanced(outer: nat, inner: nat)
    requires inner <= outer
    ensures var near := Margin(outer, inner); var far := outer - inner - near;
      near <= far <= near + 1 && near + inner + far == outer
  {
  }

  /** A centred image holds `src` at the centred offsets and is transparent everywhere else. */
  lemma CentredPixels(src: Image, w: nat, h: nat)
    requires FitsIn(src, w, h)
    ensures var img := Centred(src, w, h); var dx := Margin(w, src.width); var dy := Margin(h, src.height);
      dx + src.width <= w && dy + src.height <= h &&
      (forall y, x :: 0 <= y < src.height && 0 <= x < src.width ==> img.rows[dy + y][dx + x] == src.rows[y][x]) &&
      (forall y, x :: 0 <= y < h && 0 <= x < w && !Covers(src, dx, dy, x, y) ==> img.rows[y][x] == Transparent)
  {
    var img := Centred(src, w, h);
    var dx := Margin(w, src.width);
    var dy := Margin(h, src.height);
    forall y, x | 0 <= y < src.height && 0 <= x < src.width
      ensures img.rows[dy + y][dx + x] == src.rows[y][x]
    {
      assert Covers(src, dx, dy, dx + x, dy + y);
    }
  }

  /** Centring an image that already has the box's dimensions gives it back unchanged. */
  lemma CentredSameSize(src: Image)
    ensures Centred(src, src.width, src.height) == src
  {
    var img := Centred(src, src.width, src.height);
    assert Margin(src.width, src.width) == 0 && Margin(src.height, src.height) == 0;
    forall y | 0 <= y < src.height
      ensures img.rows[y] == src.rows[y]
    {
      forall x | 0 <= x < src.width
        ensures img.rows[y][x] == src.rows[y][x]
      {
        assert Covers(src, 0, 0, x, y);
      }
    }
  }

  /**
   * A source of the box's dimensions as it is, otherwise centred on a transparent canvas of
   * the box's size. None: a source larger than the box underflows the unsigned offsets.
   */
  function Reframe(src: Image, w: nat, h: nat): (r: Option<Image>)
    ensures r.Some? <==> FitsIn(src, w, h)
    ensures r.Some? ==> r.value.width == w && r.value.height == h
  {
    if src.width == w && src.height == h then Some(src)
    else if FitsIn(src, w, h) then Some(Centred(src, w, h))
    else None
  }

  /** A reframed image keeps the source at the centring offsets and is transparent elsewhere. */
  lemma ReframePixels(src: Image, w: nat, h: nat)
    requires FitsIn(src, w, h)
    ensures var img := Reframe(src, w, h).value; var dx := Margin(w, src.width); var dy := Margin(h, src.height);
      (forall y, x :: 0 <= y < src.height && 0 <= x < src.width ==> img.rows[dy + y][dx + x] == src.rows[y][x]) &&
      (forall y, x :: 0 <= y < h && 0 <= x < w && !Covers(src, dx, dy, x, y) ==> img.rows[y][x] == Transparent)
    ensures src.width == w && src.height == h ==> Reframe(src, w, h) == Some(src)
  {
    if src.width == w && src.height == h {
      CentredSameSize(src);
    }
    CentredPixels(src, w, h);
  }

  /** The name of a PNG-sequence entry: `<w>.png` for a square, `<w>x<h>.png` otherwise. */
  function PngEntryName(w: nat, h: nat): string {
    if w == h then Decimal(w) + ".png" else Decimal(w) + "x" + Decimal(h) + ".png"
  }

  /** A name without an 'x' before ".png" is a square's; one with an 'x' splits at it. */
  lemma PngEntryNameParts(w: nat, h: nat)
    ensures var stem := PngEntryName(w, h)[..|PngEntryName(w, h)| - 4];
      PngEntryName(w, h)[|stem|..] == ".png" &&
      (w == h ==> stem == Decimal(w) && 'x' !in stem) &&
      (w != h ==> (stem == Decimal(w) + "x" + Decimal(h) && stem[|Decimal(w)|] == 'x' &&
         'x' !in Decimal(w) && 'x' !in Decimal(h)))
  {
    var d := Decimal(w);
    assert 'x' !in d by {
      assert forall i :: 0 <= i < |d| ==> IsDigit(d[i]);
    }
    assert 'x' !in Decimal(h) by {
      assert forall i :: 0 <= i < |Decimal(h)| ==> IsDigit(Decimal(h)[i]);
    }
  }

  /** Distinct dimensions give distinct entry names. */
  lemma PngEntryNameInjective(w1: nat, h1: nat, w2: nat, h2: nat)
    requires PngEntryName(w1, h1) == PngEntryName(w2, h2)
    ensures w1 == w2 && h1 == h2
  {
    PngEntryNameParts(w1, h1);
    PngEntryNameParts(w2, h2);
    var n := PngEntryName(w1, h1);
    var stem := n[..|n| - 4];
    if w1 == h1 && w2 == h2 {
      DecimalInjective(w1, w2);
    } else if w1 != h1 && w2 != h2 {
      XSplit(Decimal(w1), Decimal(h1), Decimal(w2), Decimal(h2));
      DecimalInjective(w1, w2);
      DecimalInjective(h1, h2);
    }
  }

  /** Two strings joined at an 'x' that neither contains split back at that 'x'. */
  lemma XSplit(a: string, b: string, c: string, d: string)
    requires 'x' !in a && 'x' !in c
    requires a + "x" + b == c + "x" + d
    ensures a == c && b == d
  {
    var s := a + "x" + b;
    assert forall i :: 0 <= i < |a| ==> s[i] == a[i] != 'x';
    assert forall i :: 0 <= i < |c| ==> s[i] == c[i] != 'x';
    assert s[|a|] == 'x' && s[|c|] == 'x';
    assert |a| == |c|;
    assert a == s[..|a|] == c;
    assert b == s[|a| + 1..] == d;
  }

  /** `image::open`: the decoded image, an I/O error, or another decoding error. */
  datatype Opened = OpenedImage(image: Image) | OpenIoError(kind: IoKind) | OpenFailed

  /**
   * Rasterizing an SVG for a requested width: the raster, or one of the library's error kinds.
   * The raster's dimensions come from a floating-point scale and are not constrained here.
   */
  datatype Rastered = Raster(image: Image) | RasterIoError(kind: IoKind) | RasterParseError | RasterFailed

  /**
   * The libraries the older evaluators call, as functions of their arguments: whether the SVG at
   * a path parses, its raster for a requested width, `image::open`, and `resize(w, h, filter)`.
   */
  datatype Library = Library(
    parsesAsSvg: string -> bool,
    rasterize: (string, nat) -> Rastered,
    open: string -> Opened,
    resize: (Image, nat, nat, FilterType) -> Image)

  /** `resize(w, h, _)` keeps the aspect ratio and fits the result inside the `w`×`h` box. */
  ghost predicate BoxedResize(lib: Library) {
    forall img: Image, w: nat, h: nat, f: FilterType :: FitsIn(lib.resize(img, w, h, f), w, h)
  }
}
