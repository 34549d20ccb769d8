/** Pictures laid over a raster and pictures set side by side. */
module Pictures {
  import opened Numbers
  import opened Strings
  import opened MascotRaster

  /** A picture as a value. */
  datatype Image = Image(width: nat, height: nat, rgba: seq<Byte>)

  predicate Whole(image: Image) {
    |image.rgba| == 4 * (image.width * image.height)
  }

  function Contents(r: Raster): Image
    reads r.rgba
  {
    Image(r.width, r.height, r.rgba[..])
  }

  function At(image: Image, px: int, py: int): Pixel
    requires Whole(image) && On(image.width, image.height, px, py)
  {
    PixelAt(image.rgba, image.width, image.height, px, py)
  }

  // ---------------------------------------------------------------------------
  // Blending

  /** A byte of a buffer; past either end there is none. */
  function ByteAt(rgba: seq<Byte>, i: int): Option<Byte> {
    if 0 <= i < |rgba| then Some(rgba[i]) else None
  }

  /** The mean of `s` and `d` weighted by `alpha` of 255, to the nearest whole number. */
  function Mix(s: Byte, alpha: Byte, d: Byte): (r: Byte)
    ensures s <= d ==> s <= r <= d
    ensures d <= s ==> d <= r <= s
    ensures alpha == 255 ==> r == s
    ensures alpha == 0 ==> r == d
  {
    var n := s as int * alpha as int + d as int * (255 - alpha as int);
    MixStaysBetween(s as int, alpha as int, d as int);
    ((2 * n + 255) / 510) as Byte
  }

  lemma Share(a: nat, alpha: nat)
    requires alpha <= 255
    ensures 0 <= a * alpha <= 255 * a
  {
  }

  lemma MixStaysBetween(s: int, alpha: nat, d: int)
    requires alpha <= 255
    ensures Min(s, d) <= (2 * (s * alpha + d * (255 - alpha)) + 255) / 510 <= Max(s, d)
  {
    assert s * alpha + d * (255 - alpha) == 255 * d + (s - d) * alpha;
    if s <= d {
      Share(d - s, alpha);
      assert (s - d) * alpha == -((d - s) * alpha);
    } else {
      Share(s - d, alpha);
    }
  }

  /** No mean lies half way between two whole numbers, so the rule for halves never matters. */
  lemma MixHasNoTies(s: int, alpha: int, d: int, k: int)
    ensures 2 * (s * alpha + d * (255 - alpha)) != 255 * (2 * k + 1)
  {
  }

  /** A channel of an absent byte becomes zero, as the language stores a number that is none. */
  function MixOrZero(s: Option<Byte>, alpha: Option<Byte>, d: Byte): Byte {
    if s.None? || alpha.None? then 0 else Mix(s.value, alpha.value, d)
  }

  // ---------------------------------------------------------------------------
  // Overlay

  datatype Box = Box(left: int, top: int, width: int, height: int)

  predicate InBox(box: Box, px: int, py: int) {
    box.left <= px < box.left + box.width && box.top <= py < box.top + box.height
  }

  function BoxOf(row: int, col: int, cols: int, rows: int, cell: nat): Box {
    Box(col * cell, row * cell * 2, cols * cell, rows * cell * 2)
  }

  /** Where the source pixel of box pixel (x, y) starts in the image. */
  function From(image: Image, box: Box, x: nat, y: nat): int
    requires x < box.width && y < box.height
  {
    (Min(image.height - 1, y * image.height / box.height) * image.width + Min(image.width - 1, x * image.width / box.width)) * 4
  }

  function Over(image: Image, from: int, under: Pixel): Pixel {
    var alpha := ByteAt(image.rgba, from + 3);
    if alpha == Some(0) then under
    else
      var d := under.colour;
      Pixel(Colour(MixOrZero(ByteAt(image.rgba, from), alpha, d.r),
                   MixOrZero(ByteAt(image.rgba, from + 1), alpha, d.g),
                   MixOrZero(ByteAt(image.rgba, from + 2), alpha, d.b)), under.alpha)
  }

  /** What lies at a pixel once the image is over it. */
  function Overlaid(image: Image, box: Box, px: int, py: int, under: Pixel): Pixel {
    if InBox(box, px, py) then Over(image, From(image, box, px - box.left, py - box.top), under) else under
  }

  ghost predicate OverlaidUpTo(was: Image, now: Image, image: Image, box: Box, x: int, y: int)
    requires Whole(was) && Whole(now) && now.width == was.width && now.height == was.height
  {
    forall px, py | On(was.width, was.height, px, py) ::
      At(now, px, py) ==
      if py - box.top < y || (py - box.top == y && px - box.left < x) then Overlaid(image, box, px, py, At(was, px, py))
      else At(was, px, py)
  }

  method OverlayPixel(out: Raster, image: Raster, box: Box, x: nat, y: nat)
    requires Sized(out) && out.rgba != image.rgba && x < box.width && y < box.height
    modifies out.rgba
    ensures forall px, py | On(out.width, out.height, px, py) ::
              At(Contents(out), px, py) ==
              if px == box.left + x && py == box.top + y
              then Over(Contents(image), From(Contents(image), box, x, y), At(old(Contents(out)), px, py))
              else At(old(Contents(out)), px, py)
  {
    ghost var was := out.rgba[..];
    var bytes := Contents(image).rgba;
    var from := From(Contents(image), box, x, y);
    var px, py := box.left + x, box.top + y;
    var alpha := ByteAt(bytes, from + 3);
    if alpha == Some(0) || px < 0 || py < 0 || px >= out.width || py >= out.height {
      return;
    }
    SpotOnRaster(out.width, out.height, px, py);
    var to := Spot(out.width, px, py) * 4;
    hide Spot, ByteAt, MixOrZero, From;
    for channel := 0 to 3
      invariant forall i :: 0 <= i < |was| && !(0 <= i - to < channel) ==> out.rgba[i] == was[i]
      invariant channel > 0 ==> out.rgba[to] == MixOrZero(ByteAt(bytes, from), alpha, was[to])
      invariant channel > 1 ==> out.rgba[to + 1] == MixOrZero(ByteAt(bytes, from + 1), alpha, was[to + 1])
      invariant channel > 2 ==> out.rgba[to + 2] == MixOrZero(ByteAt(bytes, from + 2), alpha, was[to + 2])
    {
      out.rgba[to + channel] := MixOrZero(ByteAt(bytes, from + channel), alpha, out.rgba[to + channel]);
    }
    OtherPixelsKept(was, out.rgba[..], out.width, out.height, px, py);
  }

  /** The image blended over the box of cells, one target pixel at a time. */
  method OverlayImage(out: Raster, image: Raster, row: int, col: int, cols: int, rows: int, cell: nat)
    requires Sized(out) && out.rgba != image.rgba
    modifies out.rgba
    ensures forall px, py | On(out.width, out.height, px, py) ::
              At(Contents(out), px, py) ==
              Overlaid(Contents(image), BoxOf(row, col, cols, rows, cell), px, py, At(old(Contents(out)), px, py))
  {
    hide At, Over, From;
    var box := BoxOf(row, col, cols, rows, cell);
    ghost var source := Contents(image);
    ghost var was := Contents(out);
    var y := 0;
    while y < box.height
      invariant 0 <= y && Contents(image) == source
      invariant OverlaidUpTo(was, Contents(out), source, box, 0, y)
    {
      var x := 0;
      while x < box.width
        invariant 0 <= x && Contents(image) == source
        invariant OverlaidUpTo(was, Contents(out), source, box, x, y)
      {
        OverlayPixel(out, image, box, x, y);
        x := x + 1;
      }
      y := y + 1;
    }
  }

  predicate NotEmpty(image: Image) {
    Whole(image) && image.width > 0 && image.height > 0
  }

  /** The image pixel nearest to box pixel (x, y), counted from the top left. */
  function Nearest(image: Image, box: Box, x: nat, y: nat): Pixel
    requires NotEmpty(image) && x < box.width && y < box.height
  {
    NearestOnImage(image.width, box.width, x);
    NearestOnImage(image.height, box.height, y);
    At(image, x * image.width / box.width, y * image.height / box.height)
  }

  /** Scaling `size` pixels to `room` pixels shows pixel `n` at place `p` exactly when place `p` starts in the share of `n`. */
  lemma NearestOnImage(size: nat, room: nat, p: nat)
    requires p < room
    ensures 0 <= p * size / room && (size > 0 ==> p * size / room < size)
    ensures forall n: nat :: p * size / room == n <==> n * room <= p * size < n * room + room
  {
    var a := p * size;
    forall n: nat ensures a / room == n <==> n * room <= a < n * room + room {
      QuotientIs(a, room, n);
    }
    if size > 0 { BelowAll(a, room, p, size); }
  }

  lemma BelowAll(a: nat, room: nat, p: nat, size: nat)
    requires a == p * size && p < room && size > 0
    ensures a / room < size
  {
    assert a < room * size by { Monotone(room, p + 1, size); }
    var n := a / room;
    QuotientIs(a, room, n);
    Monotone(n, size, room);
  }

  function Blend(s: Pixel, under: Pixel): Pixel {
    Pixel(Colour(Mix(s.colour.r, s.alpha, under.colour.r), Mix(s.colour.g, s.alpha, under.colour.g),
                 Mix(s.colour.b, s.alpha, under.colour.b)), under.alpha)
  }

  /** An overlay blends each pixel of the box with its nearest image pixel, and the guards against leaving the image never act. */
  lemma OverlayBlendsNearest(image: Image, box: Box, px: int, py: int, under: Pixel)
    requires NotEmpty(image)
    ensures Overlaid(image, box, px, py, under)
         == if InBox(box, px, py) then Blend(Nearest(image, box, px - box.left, py - box.top), under) else under
  {
    if InBox(box, px, py) {
      var x, y := px - box.left, py - box.top;
      NearestOnImage(image.width, box.width, x);
      NearestOnImage(image.height, box.height, y);
      var sx, sy := x * image.width / box.width, y * image.height / box.height;
      assert From(image, box, x, y) == 4 * Spot(image.width, sx, sy);
      SpotOnRaster(image.width, image.height, sx, sy);
      hide From, Spot, Mix;
      MixOfNothing(At(image, sx, sy), under);
    }
  }

  lemma MixOfNothing(s: Pixel, under: Pixel)
    ensures s.alpha == 0 ==> Blend(s, under) == under
  {
  }

  /** An image without pixels turns its whole box black. */
  lemma EmptyImageBlackens(image: Image, box: Box, px: int, py: int, under: Pixel)
    requires Whole(image) && !NotEmpty(image) && InBox(box, px, py)
    ensures Overlaid(image, box, px, py, under) == Pixel(Colour(0, 0, 0), under.alpha)
  {
    assert image.width * image.height == 0;
  }

  predicate Between(r: Byte, a: Byte, b: Byte) {
    a <= r <= b || b <= r <= a
  }

  /** Only the colour changes, and every channel ends between what it was and what the image has. */
  lemma OverlayStaysBetween(image: Image, box: Box, px: int, py: int, under: Pixel)
    requires NotEmpty(image) && InBox(box, px, py)
    ensures var s := Nearest(image, box, px - box.left, py - box.top).colour;
            var r := Overlaid(image, box, px, py, under);
            && r.alpha == under.alpha && Between(r.colour.r, s.r, under.colour.r)
            && Between(r.colour.g, s.g, under.colour.g) && Between(r.colour.b, s.b, under.colour.b)
  {
    OverlayBlendsNearest(image, box, px, py, under);
    hide Overlaid, Mix, Nearest;
  }

  /** Where the image is opaque or clear, the overlay is the image or nothing, and doing it again changes nothing. */
  lemma OverlayTwice(image: Image, box: Box, px: int, py: int, under: Pixel)
    requires NotEmpty(image) && InBox(box, px, py) && Nearest(image, box, px - box.left, py - box.top).alpha in {0, 255}
    ensures var s := Nearest(image, box, px - box.left, py - box.top);
            var r := Overlaid(image, box, px, py, under);
            && r == (if s.alpha == 0 then under else Pixel(s.colour, under.alpha))
            && Overlaid(image, box, px, py, r) == r
  {
    OverlayBlendsNearest(image, box, px, py, under);
    OverlayBlendsNearest(image, box, px, py, Overlaid(image, box, px, py, under));
    hide Overlaid, Mix, Nearest;
  }

  /** In a box `k` times its size, every image pixel becomes a square of `k` by `k`. */
  lemma ScaledToSquares(image: Image, box: Box, k: nat, x: nat, y: nat)
    requires NotEmpty(image) && k > 0 && box.width == k * image.width && box.height == k * image.height
    requires x < box.width && y < box.height
    ensures On(image.width, image.height, x / k, y / k)
    ensures Nearest(image, box, x, y) == At(image, x / k, y / k)
  {
    ScaledPlace(image.width, k, x);
    ScaledPlace(image.height, k, y);
  }

  lemma ScaledPlace(size: nat, k: nat, p: nat)
    requires size > 0 && k > 0 && p < k * size
    ensures p * size / (k * size) == p / k < size
  {
    var q, room := p / k, k * size;
    QuotientIs(p, k, q);
    Scaled(q * k, p, size);
    Scaled(p, q * k + k - 1, size);
    ShareOf(q, k, size);
    QuotientIs(p * size, room, q);
    BelowAll(p * size, room, p, size);
  }

  lemma ShareOf(q: nat, k: nat, size: nat)
    ensures q * (k * size) == q * k * size && (q * k + k - 1) * size == q * (k * size) + k * size - size
  {
    var a := q * k;
    assert (a + k - 1) * size == a * size + k * size - size;
  }

  lemma Scaled(a: int, b: int, size: nat)
    requires a <= b
    ensures a * size <= b * size
  {
    Monotone(b, a, size);
  }

  // ---------------------------------------------------------------------------
  // Side by side

  function ImagesOf(parts: seq<Raster>): (r: seq<Image>)
    reads set i | 0 <= i < |parts| :: parts[i].rgba
    ensures |r| == |parts| && forall i :: 0 <= i < |r| ==> r[i] == Contents(parts[i])
  {
    if parts == [] then [] else ImagesOf(parts[..|parts| - 1]) + [Contents(parts[|parts| - 1])]
  }

  predicate AllWhole(parts: seq<Image>) {
    forall i :: 0 <= i < |parts| ==> Whole(parts[i])
  }

  /** Where the part after the first `n` starts. */
  function Offset(parts: seq<Image>, n: nat, gap: nat): nat
    requires n <= |parts|
  {
    if n == 0 then 0 else Offset(parts, n - 1, gap) + parts[n - 1].width + gap
  }

  function TotalWidth(parts: seq<Image>, gap: nat): nat
    requires parts != []
  {
    Offset(parts, |parts| - 1, gap) + parts[|parts| - 1].width
  }

  function Tallest(parts: seq<Image>): (h: nat)
    ensures forall i :: 0 <= i < |parts| ==> parts[i].height <= h
    ensures parts != [] ==> exists i :: 0 <= i < |parts| && parts[i].height == h
  {
    if parts == [] then 0
    else
      var front := parts[..|parts| - 1];
      if front == [] then parts[0].height else Max(Tallest(front), parts[|parts| - 1].height)
  }

  /** The first `n` parts over the background. */
  function RowPixelAt(parts: seq<Image>, n: nat, gap: nat, ground: Pixel, px: int, py: int): Pixel
    requires n <= |parts| && AllWhole(parts)
  {
    if n == 0 then ground
    else
      var x := Offset(parts, n - 1, gap);
      if On(parts[n - 1].width, parts[n - 1].height, px - x, py) then At(parts[n - 1], px - x, py)
      else RowPixelAt(parts, n - 1, gap, ground, px, py)
  }

  lemma {:induction false} OffsetsGrow(parts: seq<Image>, i: nat, j: nat, gap: nat)
    requires i < j <= |parts|
    ensures Offset(parts, i, gap) + parts[i].width + gap <= Offset(parts, j, gap)
  {
    if i < j - 1 { OffsetsGrow(parts, i, j - 1, gap); }
  }

  /** Every pixel of every part is kept, at the part's offset. */
  lemma {:induction false} PartIsKept(parts: seq<Image>, n: nat, gap: nat, ground: Pixel, i: nat, dx: nat, py: nat)
    requires i < n <= |parts| && AllWhole(parts) && On(parts[i].width, parts[i].height, dx, py)
    ensures RowPixelAt(parts, n, gap, ground, Offset(parts, i, gap) + dx, py) == At(parts[i], dx, py)
  {
    hide At, Offset;
    if i < n - 1 {
      OffsetsGrow(parts, i, n - 1, gap);
      PartIsKept(parts, n - 1, gap, ground, i, dx, py);
    }
  }

  /** A pixel under no part is background. */
  lemma {:induction false} GapIsGround(parts: seq<Image>, n: nat, gap: nat, ground: Pixel, px: int, py: int)
    requires n <= |parts| && AllWhole(parts)
    requires forall i :: 0 <= i < n ==> !On(parts[i].width, parts[i].height, px - Offset(parts, i, gap), py)
    ensures RowPixelAt(parts, n, gap, ground, px, py) == ground
  {
    hide At, Offset;
    if n > 0 { GapIsGround(parts, n - 1, gap, ground, px, py); }
  }

  /** Part `part` laid at column `x`, its first `done` rows so far. */
  ghost predicate LaidUpTo(was: Image, now: Image, part: Image, x: int, done: int, next: int)
    requires Whole(was) && Whole(now) && Whole(part) && now.width == was.width && now.height == was.height
  {
    forall px, py | On(was.width, was.height, px, py) ::
      At(now, px, py) ==
      if On(part.width, part.height, px - x, py) && (py < done || (py == done && px - x < next)) then At(part, px - x, py)
      else At(was, px, py)
  }

  method LayPart(out: Raster, part: Raster, x: nat)
    requires Sized(out) && Sized(part) && out.rgba != part.rgba
    requires part.height <= out.height && x + part.width <= out.width
    modifies out.rgba
    ensures LaidUpTo(old(Contents(out)), Contents(out), Contents(part), x, part.height, 0)
  {
    hide PixelAt;
    ghost var was, source := Contents(out), Contents(part);
    for y := 0 to part.height
      invariant Contents(part) == source && LaidUpTo(was, Contents(out), source, x, y, 0)
    {
      for at := 0 to part.width
        invariant Contents(part) == source && LaidUpTo(was, Contents(out), source, x, y, at)
      {
        SetPixel(out, x + at, y, At(Contents(part), at, y));
      }
    }
  }

  ghost predicate Composed(now: Image, parts: seq<Image>, n: nat, gap: nat, ground: Pixel)
    requires Whole(now) && n <= |parts| && AllWhole(parts)
  {
    forall px, py | On(now.width, now.height, px, py) :: At(now, px, py) == RowPixelAt(parts, n, gap, ground, px, py)
  }

  lemma LaidIsComposed(was: Image, now: Image, parts: seq<Image>, n: nat, gap: nat, ground: Pixel)
    requires Whole(was) && Whole(now) && now.width == was.width && now.height == was.height
    requires n < |parts| && AllWhole(parts) && Composed(was, parts, n, gap, ground)
    requires LaidUpTo(was, now, parts[n], Offset(parts, n, gap), parts[n].height, 0)
    ensures Composed(now, parts, n + 1, gap, ground)
  {
    hide At, Offset, RowPixelAt;
    forall px, py | On(now.width, now.height, px, py)
      ensures At(now, px, py) == RowPixelAt(parts, n + 1, gap, ground, px, py)
    {
      NextPart(parts, n, gap, ground, px, py);
    }
  }

  lemma NextPart(parts: seq<Image>, n: nat, gap: nat, ground: Pixel, px: int, py: int)
    requires n < |parts| && AllWhole(parts)
    ensures RowPixelAt(parts, n + 1, gap, ground, px, py) ==
            if On(parts[n].width, parts[n].height, px - Offset(parts, n, gap), py) then At(parts[n], px - Offset(parts, n, gap), py)
            else RowPixelAt(parts, n, gap, ground, px, py)
  {
    hide At, Offset;
  }

  lemma SolidIsComposed(now: Image, parts: seq<Image>, gap: nat, ground: Pixel)
    requires Whole(now) && AllWhole(parts)
    requires forall px, py | On(now.width, now.height, px, py) :: At(now, px, py) == ground
    ensures Composed(now, parts, 0, gap, ground)
  {
    hide At;
  }

  method Ground(out: Raster, background: Colour)
    requires Sized(out)
    modifies out.rgba
    ensures forall px, py | On(out.width, out.height, px, py) :: At(Contents(out), px, py) == Pixel(background, 255)
  {
    hide PixelAt;
    Fill(out, Rect(0, 0, out.width, out.height, background));
  }

  method Measure(parts: seq<Raster>, gap: nat) returns (width: nat, height: nat)
    requires parts != []
    ensures width == TotalWidth(ImagesOf(parts), gap) && height == Tallest(ImagesOf(parts))
  {
    ghost var images := ImagesOf(parts);
    height, width := 0, 0;
    for i := 0 to |parts|
      invariant height == Tallest(images[..i]) && width == Offset(images, i, gap)
    {
      assert images[..i + 1][..i] == images[..i];
      height := Max(height, parts[i].height);
      width := width + parts[i].width + gap;
    }
    width := width - gap;
    assert images[..|parts|] == images;
  }

  lemma PartFits(parts: seq<Image>, i: nat, gap: nat)
    requires i < |parts|
    ensures Offset(parts, i, gap) + parts[i].width <= TotalWidth(parts, gap) && parts[i].height <= Tallest(parts)
  {
    if i < |parts| - 1 { OffsetsGrow(parts, i, |parts| - 1, gap); }
  }

  /** Pictures side by side, `gap` pixels apart, on one background. */
  method RasterRow(parts: seq<Raster>, gap: nat, background: Colour) returns (out: Raster)
    requires parts != [] && forall i :: 0 <= i < |parts| ==> Sized(parts[i])
    ensures fresh(out.rgba) && Sized(out)
    ensures out.width == TotalWidth(ImagesOf(parts), gap) && out.height == Tallest(ImagesOf(parts))
    ensures AllWhole(ImagesOf(parts)) && Composed(Contents(out), ImagesOf(parts), |parts|, gap, Pixel(background, 255))
  {
    hide At, Composed, LaidUpTo, PixelAt, TotalWidth, Tallest, ImagesOf;
    ghost var images := ImagesOf(parts);
    var width, height := Measure(parts, gap);
    var rgba := new Byte[4 * (width * height)](_ => 0);
    out := Raster(width, height, rgba);
    Ground(out, background);
    SolidIsComposed(Contents(out), images, gap, Pixel(background, 255));
    var x := 0;
    for i := 0 to |parts|
      invariant ImagesOf(parts) == images
      invariant x == Offset(images, i, gap) && Composed(Contents(out), images, i, gap, Pixel(background, 255))
    {
      ghost var was := Contents(out);
      PartFits(images, i, gap);
      LayPart(out, parts[i], x);
      LaidIsComposed(was, Contents(out), images, i, gap, Pixel(background, 255));
      x := x + parts[i].width + gap;
    }
  }
}
