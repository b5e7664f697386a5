/** The two face crops the liveness models look at (backend/app/face/liveness.py). */
module CropGeometry {
  import opened Basics

  /** Pixel corners `x1, y1, x2, y2`. */
  datatype Bbox = Bbox(x1: int, y1: int, x2: int, y2: int) {
    predicate Positive() {
      x1 < x2 && y1 < y2
    }
  }

  /** Python's `int`: towards zero. */
  function Truncate(x: real): int {
    if x >= 0.0 then x.Floor else -((-x).Floor)
  }

  /** Python's `round`: to the nearest integer, ties to even. */
  function Round(x: real): int {
    var low := x.Floor;
    var rest := x - low as real;
    if rest < 0.5 || (rest == 0.5 && low % 2 == 0) then low else low + 1
  }

  /** The integer part, never further from zero than `x`. */
  lemma TruncateMeans(x: real)
    ensures x >= 0.0 ==> Truncate(x) as real <= x < Truncate(x) as real + 1.0
    ensures x <= 0.0 ==> Truncate(x) as real - 1.0 < x <= Truncate(x) as real
  {
  }

  /** A nearest integer, and of two the even one. */
  lemma RoundMeans(x: real, n: int)
    ensures var off := Round(x) as real - x;
            && -0.5 <= off <= 0.5
            && (n == Round(x) <==> (-0.5 < n as real - x < 0.5)
                                   || ((n as real - x == 0.5 || n as real - x == -0.5) && n % 2 == 0))
  {
  }

  // ---------------------------------------------------------------------------------------------
  // The clamped crop

  function FittedScale(srcW: int, srcH: int, box: Bbox, scale: real): real
    requires box.Positive()
  {
    var boxW, boxH := box.x2 - box.x1, box.y2 - box.y1;
    RealMin((srcH - 1) as real / boxH as real, RealMin((srcW - 1) as real / boxW as real, scale))
  }

  /** The fitted length of one side of the box. */
  function Spread(low: int, high: int, fitted: real): real {
    (high - low) as real * fitted
  }

  function Middle(low: int, high: int): real {
    (high - low) as real / 2.0 + low as real
  }

  /** The two ends of an interval of length `spread` around `centre`, truncated, before any shift. */
  function SpanLow(centre: real, spread: real): int {
    Truncate(centre - spread / 2.0)
  }

  function SpanHigh(centre: real, spread: real): int {
    Truncate(centre + spread / 2.0)
  }

  /** `[low, high]` moved by the smallest shift that puts it inside `[0, last]`. */
  function Clamp(low: int, size: int, last: int): int {
    if low < 0 then 0 else if low > last - size then last - size else low
  }

  /** Truncating both ends of an interval never stretches it past the next integer length. */
  lemma TruncatedSpanFits(a: real, b: real, n: int)
    requires a <= b <= a + n as real
    ensures 0 <= Truncate(b) - Truncate(a) <= n
  {
  }

  /** The fitted interval keeps the middle of the box and has the fitted length. */
  lemma IntervalMeans(low: int, high: int, spread: real)
    ensures var centre := Middle(low, high);
            && centre - low as real == high as real - centre
            && (spread >= 0.0 && centre >= spread / 2.0 ==>
                  && SpanLow(centre, spread) as real <= centre - spread / 2.0 < SpanLow(centre, spread) as real + 1.0
                  && SpanHigh(centre, spread) as real <= centre + spread / 2.0 < SpanHigh(centre, spread) as real + 1.0)
  {
  }

  lemma SpanFits(centre: real, spread: real, n: int)
    requires 0.0 <= spread <= n as real
    ensures 0 <= SpanHigh(centre, spread) - SpanLow(centre, spread) <= n
  {
    TruncatedSpanFits(centre - spread / 2.0, centre + spread / 2.0, n);
  }

  lemma QuotientBound(size: real, scale: real, room: real)
    requires 0.0 < size && 0.0 <= scale <= room / size
    ensures 0.0 <= size * scale <= room
  {
    assert size * scale <= size * (room / size) == room;
  }

  lemma FittedScaleFits(srcW: int, srcH: int, box: Bbox, scale: real)
    requires box.Positive() && srcW >= 1 && srcH >= 1 && scale >= 0.0
    ensures var s := FittedScale(srcW, srcH, box, scale);
            && 0.0 <= s <= (srcW - 1) as real / (box.x2 - box.x1) as real
            && s <= (srcH - 1) as real / (box.y2 - box.y1) as real
  {
  }

  /** The fitted scale is the largest, up to the one asked for, at which no side is longer than the image allows. */
  lemma FittedScaleIsLargest(srcW: int, srcH: int, box: Bbox, scale: real, s: real)
    requires box.Positive()
    ensures s <= FittedScale(srcW, srcH, box, scale) <==>
            && s <= scale
            && s * (box.x2 - box.x1) as real <= (srcW - 1) as real
            && s * (box.y2 - box.y1) as real <= (srcH - 1) as real
  {
    QuotientIsLargest((box.x2 - box.x1) as real, (srcW - 1) as real, s);
    QuotientIsLargest((box.y2 - box.y1) as real, (srcH - 1) as real, s);
  }

  lemma QuotientIsLargest(size: real, room: real, s: real)
    requires size > 0.0
    ensures s <= room / size <==> s * size <= room
  {
    assert room == (room / size) * size;
    if s <= room / size {
      assert s * size <= (room / size) * size;
    } else {
      assert s * size > (room / size) * size;
    }
  }

  /** Clamping finds the position inside nearest to the one asked for. */
  lemma ClampIsNearest(low: int, size: int, last: int, other: int)
    requires size <= last && 0 <= other <= last - size
    ensures var c := Clamp(low, size, last);
            && 0 <= c <= last - size
            && Max(c - low, low - c) <= Max(other - low, low - other)
            && (c == other <==> Max(c - low, low - c) == Max(other - low, low - other))
  {
  }

  /** The scale is cut down until both sides fit into the image. */
  method FitSpreads(srcW: int, srcH: int, box: Bbox, scale: real) returns (spreadX: real, spreadY: real)
    requires box.Positive() && srcW >= 1 && srcH >= 1 && scale >= 0.0
    ensures spreadX == Spread(box.x1, box.x2, FittedScale(srcW, srcH, box, scale))
    ensures spreadY == Spread(box.y1, box.y2, FittedScale(srcW, srcH, box, scale))
    ensures 0.0 <= spreadX <= (srcW - 1) as real && 0.0 <= spreadY <= (srcH - 1) as real
  {
    var fitted := FittedScale(srcW, srcH, box, scale);
    FittedScaleFits(srcW, srcH, box, scale);
    QuotientBound((box.x2 - box.x1) as real, fitted, (srcW - 1) as real);
    QuotientBound((box.y2 - box.y1) as real, fitted, (srcH - 1) as real);
    spreadX, spreadY := (box.x2 - box.x1) as real * fitted, (box.y2 - box.y1) as real * fitted;
  }

  /** The successive shifts that put a rectangle inside the image. */
  method ShiftInside(srcW: int, srcH: int, left0: int, top0: int, right0: int, bottom0: int)
    returns (left: int, top: int, right: int, bottom: int)
    requires 0 <= right0 - left0 <= srcW - 1 && 0 <= bottom0 - top0 <= srcH - 1
    ensures 0 <= left <= right <= srcW - 1 && 0 <= top <= bottom <= srcH - 1
    ensures right - left == right0 - left0 && left == Clamp(left0, right0 - left0, srcW - 1)
    ensures bottom - top == bottom0 - top0 && top == Clamp(top0, bottom0 - top0, srcH - 1)
  {
    left, top, right, bottom := left0, top0, right0, bottom0;
    if left < 0 {
      right := right - left;
      left := 0;
    }
    if top < 0 {
      bottom := bottom - top;
      top := 0;
    }
    if right > srcW - 1 {
      left := left - (right - srcW + 1);
      right := srcW - 1;
    }
    if bottom > srcH - 1 {
      top := top - (bottom - srcH + 1);
      bottom := srcH - 1;
    }
  }

  method GetNewBoxClamped(srcW: int, srcH: int, box: Bbox, scale: real)
    returns (left: int, top: int, right: int, bottom: int)
    requires box.Positive() && srcW >= 1 && srcH >= 1 && scale >= 0.0
    ensures 0 <= left <= right <= srcW - 1
    ensures 0 <= top <= bottom <= srcH - 1
    ensures var centre, spread := Middle(box.x1, box.x2), Spread(box.x1, box.x2, FittedScale(srcW, srcH, box, scale));
            var low, size := SpanLow(centre, spread), SpanHigh(centre, spread) - SpanLow(centre, spread);
            right - left == size && left == Clamp(low, size, srcW - 1)
    ensures var centre, spread := Middle(box.y1, box.y2), Spread(box.y1, box.y2, FittedScale(srcW, srcH, box, scale));
            var low, size := SpanLow(centre, spread), SpanHigh(centre, spread) - SpanLow(centre, spread);
            bottom - top == size && top == Clamp(low, size, srcH - 1)
  {
    var spreadX, spreadY := FitSpreads(srcW, srcH, box, scale);
    var centreX, centreY := Middle(box.x1, box.x2), Middle(box.y1, box.y2);
    SpanFits(centreX, spreadX, srcW - 1);
    SpanFits(centreY, spreadY, srcH - 1);
    left, top, right, bottom := ShiftInside(srcW, srcH, SpanLow(centreX, spreadX), SpanLow(centreY, spreadY),
                                            SpanHigh(centreX, spreadX), SpanHigh(centreY, spreadY));
  }

  // ---------------------------------------------------------------------------------------------
  // The padded crop

  type Pixel = (int, int, int)

  const BLACK: Pixel := (0, 0, 0)

  datatype Image = Image(height: nat, width: nat, rows: seq<seq<Pixel>>) {
    predicate Valid() {
      |rows| == height && forall y | 0 <= y < height :: |rows[y]| == width
    }

    /** The pixel at `(x, y)` of the unbounded plane the image lies in: black outside it. */
    function At(x: int, y: int): Pixel
      requires Valid()
    {
      if 0 <= x < width && 0 <= y < height then rows[y][x] else BLACK
    }
  }

  /** `cv2.copyMakeBorder` with a constant black border. */
  function CopyMakeBorder(img: Image, top: nat, bottom: nat, left: nat, right: nat): (r: Image)
    requires img.Valid()
    ensures r.Valid() && r.height == img.height + top + bottom && r.width == img.width + left + right
    ensures forall x, y | 0 <= x < r.width && 0 <= y < r.height :: r.rows[y][x] == img.At(x - left, y - top)
  {
    var h, w := img.height + top + bottom, img.width + left + right;
    Image(h, w, seq(h, y => seq(w, x => img.At(x - left, y - top))))
  }

  /** `padded[y1:y2, x1:x2]`, within bounds. */
  function Slice(img: Image, x1: nat, y1: nat, x2: nat, y2: nat): (r: Image)
    requires img.Valid() && x1 <= x2 <= img.width && y1 <= y2 <= img.height
    ensures r.Valid() && r.height == y2 - y1 && r.width == x2 - x1
    ensures forall x, y | 0 <= x < r.width && 0 <= y < r.height :: r.rows[y][x] == img.rows[y1 + y][x1 + x]
  {
    Image(y2 - y1, x2 - x1, seq(y2 - y1, y requires 0 <= y < y2 - y1 => img.rows[y1 + y][x1..x2]))
  }

  function ScaledSize(low: int, high: int, scale: real): nat
    requires low < high && scale >= 0.0
  {
    assert (high - low) as real * scale >= 0.0;
    Round((high - low) as real * scale)
  }

  function Centre(low: int, high: int): int {
    Round(low as real + (high - low) as real / 2.0)
  }

  /** The scaled size is off by at most half a pixel, the centre by at most half a pixel from the middle of the box. */
  lemma WindowMeans(low: int, high: int, scale: real)
    requires low < high && scale >= 0.0
    ensures -0.5 <= ScaledSize(low, high, scale) as real - (high - low) as real * scale <= 0.5
    ensures low + high - 1 <= 2 * Centre(low, high) <= low + high + 1
  {
    RoundMeans((high - low) as real * scale, 0);
    RoundMeans(low as real + (high - low) as real / 2.0, 0);
  }

  /** A window of exactly the scaled size around the rounded centre, black wherever the image ends. */
  method CropWithPadding(img: Image, box: Bbox, scale: real) returns (crop: Image)
    requires img.Valid() && box.Positive() && scale >= 0.0
    ensures crop.Valid()
    ensures crop.width == ScaledSize(box.x1, box.x2, scale) && crop.height == ScaledSize(box.y1, box.y2, scale)
    ensures var cx, cy := Centre(box.x1, box.x2), Centre(box.y1, box.y2);
            forall x, y | 0 <= x < crop.width && 0 <= y < crop.height ::
              var u, v := cx - crop.width / 2 + x, cy - crop.height / 2 + y;
              crop.rows[y][x] == if 0 <= u < img.width && 0 <= v < img.height then img.rows[v][u] else BLACK
  {
    var newWidth, newHeight := ScaledSize(box.x1, box.x2, scale), ScaledSize(box.y1, box.y2, scale);
    var centerX, centerY := Centre(box.x1, box.x2), Centre(box.y1, box.y2);
    crop := CropAround(img, centerX, centerY, newWidth, newHeight);
  }

  method CropAround(img: Image, centerX: int, centerY: int, newWidth: nat, newHeight: nat) returns (crop: Image)
    requires img.Valid()
    ensures crop.Valid() && crop.width == newWidth && crop.height == newHeight
    ensures forall x, y | 0 <= x < newWidth && 0 <= y < newHeight ::
              crop.rows[y][x] == img.At(centerX - newWidth / 2 + x, centerY - newHeight / 2 + y)
  {
    var leftTopX, leftTopY := centerX - newWidth / 2, centerY - newHeight / 2;
    var rightBottomX, rightBottomY := leftTopX + newWidth, leftTopY + newHeight;

    var padLeft, padTop := Max(0, -leftTopX), Max(0, -leftTopY);
    var padRight, padBottom := Max(0, rightBottomX - img.width), Max(0, rightBottomY - img.height);

    var padded := CopyMakeBorder(img, padTop, padBottom, padLeft, padRight);
    crop := Slice(padded, leftTopX + padLeft, leftTopY + padTop, rightBottomX + padLeft, rightBottomY + padTop);
  }
}
