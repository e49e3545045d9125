/** The LCD rasteriser: lines and circles on a bit-packed frame buffer that stores
    eight rows to a page, one byte per column. */
module LcdRaster {
  import opened Integers

  // ---------- lines: which pixels ----------

  /** The minor offset of step k of a line that spans major columns (or rows) and
      minor rows (or columns). */
  function Offset(k: int, major: int, minor: int): int
    requires major > 0
  {
    (major / 2 + k * minor) / major
  }

  /** n pixels from v1 in the direction of v2. */
  function Toward(v1: int, v2: int, n: int): int { if v1 <= v2 then v1 + n else v1 - n }

  /** The pixels of a sloped line that runs along its first coordinate from (u1, v1)
      to (u2, v2), the last one excluded. */
  predicate OnSlope(u1: int, v1: int, u2: int, v2: int, u: int, v: int)
    requires u1 < u2
  {
    u1 <= u < u2 && v == Toward(v1, v2, Offset(u - u1, u2 - u1, Abs(v2 - v1)))
  }

  /** The same with the end points in either order. */
  predicate OnSlopeEitherWay(u1: int, v1: int, u2: int, v2: int, u: int, v: int)
    requires u1 != u2
  {
    if u1 <= u2 then OnSlope(u1, v1, u2, v2, u, v) else OnSlope(u2, v2, u1, v1, u, v)
  }

  /** The pixels DRAW_Line paints; one end point of the line is never among them. */
  predicate OnLine(x1: int, y1: int, x2: int, y2: int, x: int, y: int) {
    if x1 == x2 then x == x1 && Min(y1, y2) <= y < Max(y1, y2)
    else if y1 == y2 then y == y1 && Min(x1, x2) <= x < Max(x1, x2)
    else if Abs(x1 - x2) >= Abs(y1 - y2) then OnSlopeEitherWay(x1, y1, x2, y2, x, y)
    else OnSlopeEitherWay(y1, x1, y2, x2, y, x)
  }

  lemma QuotientUnique(n: int, d: int, q: int, r: int)
    requires d > 0 && n == q * d + r && 0 <= r < d
    ensures n / d == q
  {
    var t := n / d - q;
    assert t * d == r - n % d;
    assert t >= 1 ==> t * d >= d;
    assert t <= -1 ==> t * d <= -d;
  }

  /** A painted pixel is never more than half a pixel from the ideal line, measured
      across it. */
  lemma WithinHalfAPixel(k: int, major: int, minor: int)
    requires major > 0
    ensures -major <= 2 * (Offset(k, major, minor) * major - k * minor) <= major
  {
    var n := major / 2 + k * minor;
    assert n == (n / major) * major + n % major;
  }

  /** off and acc are quotient and remainder of what step k has accumulated. */
  predicate Tracks(k: int, major: int, minor: int, off: int, acc: int) {
    0 <= acc < major && off * major + acc == major / 2 + k * minor
  }

  lemma TracksNext(k: int, major: int, minor: int, off: int, acc: int)
    requires 0 <= minor <= major && Tracks(k, major, minor, off, acc)
    ensures off == Offset(k, major, minor)
    ensures if acc + minor >= major then Tracks(k + 1, major, minor, off + 1, acc + minor - major)
            else Tracks(k + 1, major, minor, off, acc + minor)
  {
    QuotientUnique(major / 2 + k * minor, major, off, acc);
    assert (k + 1) * minor == k * minor + minor;
    assert (off + 1) * major == off * major + major;
  }

  /** The second coordinates of the pixels of a sloped line, one for each step. */
  function SlopeOffsets(u1: int, v1: int, u2: int, v2: int): (vs: seq<int>)
    requires u1 < u2
  {
    seq(u2 - u1, k requires 0 <= k < u2 - u1 =>
        Toward(v1, v2, Offset(k, u2 - u1, Abs(v2 - v1))))
  }

  /** vs are the coordinates, and accs the values of the accumulator, that the loop of a
      sloped line goes through, one for each step. */
  ghost predicate Follows(vs: seq<int>, accs: seq<int>, v1: int, v2: int, major: int, minor: int) {
    && 0 < major == |vs| && |accs| == major + 1
    && vs[0] == v1 && accs[0] == major / 2
    && (forall k :: 0 <= k < major ==>
          accs[k + 1] == if accs[k] + minor >= major then accs[k] + minor - major else accs[k] + minor)
    && (forall k :: 0 <= k < major - 1 ==>
          vs[k + 1] == if accs[k] + minor >= major then Toward(vs[k], vs[k] + v2 - v1, 1) else vs[k])
  }

  /** The accumulator after k steps. */
  function Acc(k: nat, major: int, minor: int): int
    requires major > 0
  {
    (major / 2 + k * minor) % major
  }

  lemma AccTracks(k: nat, major: int, minor: int)
    requires 0 <= minor <= major && major > 0
    ensures Tracks(k, major, minor, Offset(k, major, minor), Acc(k, major, minor))
  {
    var n := major / 2 + k * minor;
    assert n == (n / major) * major + n % major;
  }

  lemma AccNext(k: nat, major: int, minor: int)
    requires 0 <= minor <= major && major > 0
    ensures var acc, off := Acc(k, major, minor), Offset(k, major, minor);
            if acc + minor >= major then
              Acc(k + 1, major, minor) == acc + minor - major && Offset(k + 1, major, minor) == off + 1
            else Acc(k + 1, major, minor) == acc + minor && Offset(k + 1, major, minor) == off
  {
    var acc, off := Acc(k, major, minor), Offset(k, major, minor);
    AccTracks(k, major, minor);
    AccTracks(k + 1, major, minor);
    TracksNext(k, major, minor, off, acc);
    var acc', off' := if acc + minor >= major then acc + minor - major else acc + minor,
                      if acc + minor >= major then off + 1 else off;
    TracksNext(k + 1, major, minor, off', acc');
  }

  lemma OffsetEnds(major: int, minor: int)
    requires major > 0
    ensures Offset(0, major, minor) == 0 && Offset(major, major, minor) == minor
  {
    QuotientUnique(major / 2 + 0 * minor, major, 0, major / 2);
    QuotientUnique(major / 2 + major * minor, major, minor, major / 2);
  }

  lemma FirstStep(major: int, minor: int)
    requires 0 <= minor <= major && major > 0
    ensures Offset(0, major, minor) == 0 && Acc(0, major, minor) == major / 2
  {
    OffsetEnds(major, minor);
    AccTracks(0, major, minor);
  }

  function Accs(major: int, minor: int): (accs: seq<int>)
    requires major > 0
    ensures |accs| == major + 1 && forall k :: 0 <= k <= major ==> accs[k] == Acc(k, major, minor)
  {
    seq(major + 1, k requires 0 <= k => Acc(k, major, minor))
  }

  lemma SlopeStep(u1: int, v1: int, u2: int, v2: int, k: nat)
    requires u1 < u2 && Abs(v2 - v1) <= u2 - u1 && k < u2 - u1
    ensures var vs, accs, major, minor := SlopeOffsets(u1, v1, u2, v2), Accs(u2 - u1, Abs(v2 - v1)), u2 - u1, Abs(v2 - v1);
            && accs[k + 1] == (if accs[k] + minor >= major then accs[k] + minor - major else accs[k] + minor)
            && (k < major - 1 ==>
                  vs[k + 1] == if accs[k] + minor >= major then Toward(vs[k], vs[k] + v2 - v1, 1) else vs[k])
  {
    AccNext(k, u2 - u1, Abs(v2 - v1));
  }

  lemma SlopeFollows(u1: int, v1: int, u2: int, v2: int)
    requires u1 < u2 && Abs(v2 - v1) <= u2 - u1
    ensures Follows(SlopeOffsets(u1, v1, u2, v2), Accs(u2 - u1, Abs(v2 - v1)), v1, v2, u2 - u1, Abs(v2 - v1))
  {
    var vs, accs, major, minor := SlopeOffsets(u1, v1, u2, v2), Accs(u2 - u1, Abs(v2 - v1)), u2 - u1, Abs(v2 - v1);
    FirstStep(major, minor);
    forall k | 0 <= k < major
      ensures accs[k + 1] == if accs[k] + minor >= major then accs[k] + minor - major else accs[k] + minor
      ensures k < major - 1 ==>
                vs[k + 1] == if accs[k] + minor >= major then Toward(vs[k], vs[k] + v2 - v1, 1) else vs[k]
    {
      SlopeStep(u1, v1, u2, v2, k);
    }
  }

  /** The line starts at its first end point, moves across by at most one pixel a
      step, and would reach the other end point with its first unpainted step. */
  lemma SlopeIsConnected(k: nat, major: int, minor: int)
    requires 0 <= minor <= major && major > 0
    ensures Offset(0, major, minor) == 0
    ensures 0 <= Offset(k + 1, major, minor) - Offset(k, major, minor) <= 1
    ensures Offset(major, major, minor) == minor
  {
    OffsetEnds(major, minor);
    AccNext(k, major, minor);
  }

  lemma {:induction false} OffsetWithin(k: nat, major: int, minor: int)
    requires 0 <= minor <= major && k <= major && major > 0
    ensures 0 <= Offset(k, major, minor) <= minor
  {
    OffsetsAscend(0, k, major, minor);
    OffsetsAscend(k, major, major, minor);
    SlopeIsConnected(0, major, minor);
  }

  lemma {:induction false} OffsetsAscend(j: nat, k: nat, major: int, minor: int)
    requires 0 <= minor <= major && major > 0 && j <= k
    ensures Offset(j, major, minor) <= Offset(k, major, minor)
    decreases k - j
  {
    if j < k {
      SlopeIsConnected(j, major, minor);
      OffsetsAscend(j + 1, k, major, minor);
    }
  }

  /** The painted pixels lie in the bounding box of the end points. */
  lemma LineInBoundingBox(x1: int, y1: int, x2: int, y2: int, x: int, y: int)
    requires OnLine(x1, y1, x2, y2, x, y)
    ensures Min(x1, x2) <= x <= Max(x1, x2) && Min(y1, y2) <= y <= Max(y1, y2)
  {
    if x1 != x2 && y1 != y2 {
      if Abs(x1 - x2) >= Abs(y1 - y2) {
        OffsetWithin(x - Min(x1, x2), Abs(x1 - x2), Abs(y1 - y2));
      } else {
        OffsetWithin(y - Min(y1, y2), Abs(y1 - y2), Abs(x1 - x2));
      }
    }
  }

  /** Of the two end points, the one that comes first along the longer side is painted,
      and the other is not. */
  lemma LineEnds(x1: int, y1: int, x2: int, y2: int)
    requires if Abs(x1 - x2) >= Abs(y1 - y2) then x1 < x2 else y1 < y2
    ensures OnLine(x1, y1, x2, y2, x1, y1) && !OnLine(x1, y1, x2, y2, x2, y2)
  {
    if x1 != x2 && y1 != y2 {
      OffsetEnds(Max(Abs(x1 - x2), Abs(y1 - y2)), Min(Abs(x1 - x2), Abs(y1 - y2)));
    }
  }

  /** A line is the same set of pixels drawn from either end. */
  lemma LineHasNoDirection(x1: int, y1: int, x2: int, y2: int, x: int, y: int)
    ensures OnLine(x1, y1, x2, y2, x, y) <==> OnLine(x2, y2, x1, y1, x, y)
  {
  }

  // ---------- circles: which pixels ----------

  /** In the octant y <= x, the point on row y is the one whose x is nearest to the
      true circle: (x - 1/2)^2 < r^2 - y^2 + 1/4 and r^2 - y^2 < (x + 1/2)^2. */
  predicate OnOctant(r: int, x: int, y: int) {
    && r >= 0 && 0 <= y <= x
    && if r == 0 then x == 0 else -x <= x * x + y * y - r * r < x
  }

  /** The pixels DRAW_Circle paints, relative to the centre. */
  predicate OnCircle(r: int, dx: int, dy: int) {
    OnOctant(r, Max(Abs(dx), Abs(dy)), Min(Abs(dx), Abs(dy)))
  }

  /** x is the integer nearest to the square root of r^2 - y^2. */
  lemma OctantIsNearest(r: int, x: int, y: int)
    requires r >= 1 && OnOctant(r, x, y)
    ensures (2 * x - 1) * (2 * x - 1) <= 4 * (r * r - y * y) < (2 * x + 1) * (2 * x + 1)
  {
    assert (2 * x - 1) * (2 * x - 1) == 4 * (x * x) - 4 * x + 1;
    assert (2 * x + 1) * (2 * x + 1) == 4 * (x * x) + 4 * x + 1;
  }

  lemma OctantUnique(r: int, x: int, x': int, y: int)
    requires OnOctant(r, x, y) && OnOctant(r, x', y)
    ensures x == x'
  {
    if x < x' {
      LargerSquare(x, x');
    } else if x' < x {
      LargerSquare(x', x);
    }
  }

  lemma LargerSquare(a: int, b: int)
    requires 0 <= a < b
    ensures b * b - b >= a * a + a
  {
    assert b * (b - 1) >= (a + 1) * a;
  }

  lemma OctantWithinRadius(r: int, x: int, y: int)
    requires OnOctant(r, x, y)
    ensures x <= r
  {
    if r > 0 && x > r {
      LargerSquare(r, x);
      SquareMono(0, y);
    }
  }

  /** The accumulator of the circle loop, as a function of the current point. */
  function RadiusError(r: int, x: int, y: int): int {
    x * x - x + (y + 1) * (y + 1) - r * r
  }

  /** One step of the circle loop: it keeps the accumulator, and, as long as the
      octant is not left, leads to the point of the next row. */
  lemma CircleStep(r: int, x: int, y: int)
    requires r >= 1 && OnOctant(r, x, y)
    ensures var err := RadiusError(r, x, y);
            if err < 0 then
              && RadiusError(r, x, y + 1) == err + 2 * (y + 1) + 1
              && (x >= y + 1 ==> OnOctant(r, x, y + 1))
            else
              && RadiusError(r, x - 1, y + 1) == err + 2 * ((y + 1) - (x - 1)) + 1
              && (x - 1 >= y + 1 ==> OnOctant(r, x - 1, y + 1))
  {
    assert (y + 1) * (y + 1) == y * y + 2 * y + 1;
    assert (y + 2) * (y + 2) == y * y + 4 * y + 4;
    assert (x - 1) * (x - 1) == x * x - 2 * x + 1;
  }

  lemma SquareMono(a: int, b: int)
    requires 0 <= a <= b
    ensures a * a <= b * b && a * (a - 1) <= b * (b - 1)
  {
    var d, e := b - a, a + b;
    assert d * e >= 0;
    assert b * b == a * a + d * e;
    if b > 0 {
      assert d * (e - 1) >= 0;
      assert b * (b - 1) == a * (a - 1) + d * (e - 1);
    }
  }

  /** The loop stops at the first row on which the octant has no point, and later
      rows have none either. */
  lemma CircleComplete(r: int, x: int, y: int, x': int, y': int)
    requires r >= 1 && OnOctant(r, x, y) && OnOctant(r, x', y') && y' > y
    ensures (if RadiusError(r, x, y) < 0 then x else x - 1) >= y + 1
  {
    var later := x' * (x' - 1) + y' * y';
    assert later < r * r;
    SquareMono(y + 1, y');
    SquareMono(y + 1, x');
    assert (y + 1) * (y + 1) == y * y + 2 * y + 1;
    assert (y + 1) * (y + 1 - 1) == y * y + y;
    assert x * (x - 1) == x * x - x;
    if x <= x' {
      SquareMono(x, x');
    }
  }

  // ---------- pictures ----------

  type Pixel = (int, int)

  /** Colour 0 clears pixels, any other colour sets them. */
  function Paint(picture: set<Pixel>, pixels: set<Pixel>, color: int): set<Pixel> {
    if color == 0 then picture - pixels else picture + pixels
  }

  lemma PaintMore(picture: set<Pixel>, pixels: set<Pixel>, more: set<Pixel>, color: int)
    ensures Paint(Paint(picture, pixels, color), more, color) == Paint(picture, pixels + more, color)
  {
  }

  // ---------- the frame buffer ----------

  /** The bit of row number k within its page. */
  function Mask(k: int): bv8
    requires 0 <= k < 8
  {
    1 << k
  }

  /** The value of each bit of a page's byte: the topmost row is the lowest bit. */
  lemma MaskIsPower(k: int)
    requires 0 <= k < 8
    ensures Mask(k) == [1, 2, 4, 8, 16, 32, 64, 128][k]
  {
  }

  /** The bit of the byte at cell c has been cleared, for colour 0, or set; nothing else
      has changed. */
  predicate BitWritten(f: seq<bv8>, g: seq<bv8>, c: int, bit: bv8, color: int) {
    0 <= c < |f| && g == f[c := if color == 0 then f[c] & !bit else f[c] | bit]
  }

  lemma MaskedBits(b: bv8, j: int, k: int)
    requires 0 <= j < 8 && 0 <= k < 8
    ensures (b | Mask(j)) & Mask(k) != 0 <==> j == k || b & Mask(k) != 0
    ensures (b & !Mask(j)) & Mask(k) != 0 <==> j != k && b & Mask(k) != 0
  {
  }

  /** The byte of a frame of the given width that holds pixel (x, y). */
  function Cell(width: int, x: int, y: int): int { width * (y / 8) + x }

  lemma LaterLines(width: int, line: int, lines: int)
    requires width >= 0 && line < lines
    ensures width * line + width <= width * lines
  {
    var t := lines - 1 - line;
    assert t * width >= 0;
    assert t * width == width * lines - width - width * line;
  }

  lemma CellInFrame(width: int, height: int, x: int, y: int)
    requires 0 <= x < width && 0 <= y < height && height % 8 == 0
    ensures 0 <= Cell(width, x, y) < width * (height / 8)
  {
    LaterLines(width, y / 8, height / 8);
    LaterLines(width, -1, y / 8);
  }

  lemma CellUnique(width: int, x: int, y: int, x': int, y': int)
    requires 0 <= x < width && 0 <= x' < width
    requires Cell(width, x, y) == Cell(width, x', y')
    ensures x == x' && y / 8 == y' / 8
  {
    var t := y / 8 - y' / 8;
    assert t * width == x' - x;
    assert t >= 1 ==> t * width >= width;
    assert t <= -1 ==> t * width <= -width;
  }

  predicate IsFrame(frame: seq<bv8>, width: int, height: int) {
    width >= 0 && height >= 0 && height % 8 == 0 && |frame| == width * (height / 8)
  }

  predicate InCanvas(width: int, height: int, x: int, y: int) { 0 <= x < width && 0 <= y < height }

  /** Whether the bit of pixel (x, y) is set. */
  predicate Black(frame: seq<bv8>, width: int, height: int, x: int, y: int)
    requires IsFrame(frame, width, height) && InCanvas(width, height, x, y)
  {
    CellInFrame(width, height, x, y);
    frame[Cell(width, x, y)] & Mask(y % 8) != 0
  }

  /** The picture a frame shows. */
  ghost function Decode(frame: seq<bv8>, width: int, height: int): set<Pixel>
    requires IsFrame(frame, width, height)
  {
    set x, y | 0 <= x < width && 0 <= y < height && Black(frame, width, height, x, y) :: (x, y)
  }

  /** The frame with the bit of pixel (x, y) changed. */
  function Write(frame: seq<bv8>, width: int, height: int, x: int, y: int, color: int): (f: seq<bv8>)
    requires IsFrame(frame, width, height) && InCanvas(width, height, x, y)
    ensures IsFrame(f, width, height)
  {
    CellInFrame(width, height, x, y);
    var c := Cell(width, x, y);
    frame[c := if color == 0 then frame[c] & !Mask(y % 8) else frame[c] | Mask(y % 8)]
  }

  lemma WriteOne(frame: seq<bv8>, width: int, height: int, x: int, y: int, color: int, px: int, py: int)
    requires IsFrame(frame, width, height) && InCanvas(width, height, x, y) && InCanvas(width, height, px, py)
    ensures Black(Write(frame, width, height, x, y, color), width, height, px, py) ==
            if px == x && py == y then color != 0 else Black(frame, width, height, px, py)
  {
    CellInFrame(width, height, x, y);
    CellInFrame(width, height, px, py);
    if Cell(width, px, py) == Cell(width, x, y) {
      CellUnique(width, x, y, px, py);
      MaskedBits(frame[Cell(width, x, y)], y % 8, py % 8);
    }
  }

  /** Changing one bit changes one pixel of the picture and preserves every other. */
  lemma WritePaints(frame: seq<bv8>, width: int, height: int, x: int, y: int, color: int)
    requires IsFrame(frame, width, height) && InCanvas(width, height, x, y)
    ensures Decode(Write(frame, width, height, x, y, color), width, height) ==
            Paint(Decode(frame, width, height), {(x, y)}, color)
  {
    forall px, py | InCanvas(width, height, px, py)
      ensures Black(Write(frame, width, height, x, y, color), width, height, px, py) ==
              if px == x && py == y then color != 0 else Black(frame, width, height, px, py)
    {
      WriteOne(frame, width, height, x, y, color, px, py);
    }
  }

  /** Pictures are all there is to a frame: two frames that show the same picture
      are the same. */
  lemma DecodeInjective(f: seq<bv8>, g: seq<bv8>, width: int, height: int)
    requires IsFrame(f, width, height) && IsFrame(g, width, height)
    requires Decode(f, width, height) == Decode(g, width, height)
    ensures f == g
  {
    forall c | 0 <= c < |f| ensures f[c] == g[c] {
      ByteShown(f, g, width, height, c);
    }
  }

  /** Every byte of a frame belongs to eight pixels. */
  lemma CellOf(width: int, height: int, c: int, k: int) returns (x: int, y: int)
    requires width >= 0 && height >= 0 && height % 8 == 0 && 0 <= c < width * (height / 8) && 0 <= k < 8
    ensures InCanvas(width, height, x, y) && Cell(width, x, y) == c && y % 8 == k
  {
    x := c % width;
    var line := c / width;
    if line >= height / 8 {
      LaterLines(width, height / 8 - 1, line);
    }
    y := 8 * line + k;
    assert y / 8 == line;
  }

  lemma ByteShown(f: seq<bv8>, g: seq<bv8>, width: int, height: int, c: int)
    requires IsFrame(f, width, height) && IsFrame(g, width, height)
    requires Decode(f, width, height) == Decode(g, width, height)
    requires 0 <= c < |f|
    ensures f[c] == g[c]
  {
    forall k | 0 <= k < 8 ensures f[c] & Mask(k) == g[c] & Mask(k) {
      var x, y := CellOf(width, height, c, k);
      assert Black(f, width, height, x, y) <==> (x, y) in Decode(f, width, height);
      assert Black(g, width, height, x, y) <==> (x, y) in Decode(g, width, height);
      SameMasked(f[c], g[c], k);
    }
    SameByte(f[c], g[c]);
  }

  lemma SameMasked(a: bv8, b: bv8, k: int)
    requires 0 <= k < 8 && (a & Mask(k) != 0 <==> b & Mask(k) != 0)
    ensures a & Mask(k) == b & Mask(k)
  {
  }

  lemma SameByte(a: bv8, b: bv8)
    requires forall k :: 0 <= k < 8 ==> a & Mask(k) == b & Mask(k)
    ensures a == b
  {
    assert a & Mask(0) == b & Mask(0) && a & Mask(1) == b & Mask(1) && a & Mask(2) == b & Mask(2);
    assert a & Mask(3) == b & Mask(3) && a & Mask(4) == b & Mask(4) && a & Mask(5) == b & Mask(5);
    assert a & Mask(6) == b & Mask(6) && a & Mask(7) == b & Mask(7);
  }

  /** The pixels of a line, as a set. */
  ghost function LinePixels(x1: int, y1: int, x2: int, y2: int): set<Pixel> {
    set x, y | Min(x1, x2) <= x <= Max(x1, x2) && Min(y1, y2) <= y <= Max(y1, y2)
               && OnLine(x1, y1, x2, y2, x, y) :: (x, y)
  }

  lemma LinePixelsAreOnLine(x1: int, y1: int, x2: int, y2: int, x: int, y: int)
    ensures (x, y) in LinePixels(x1, y1, x2, y2) <==> OnLine(x1, y1, x2, y2, x, y)
  {
    if OnLine(x1, y1, x2, y2, x, y) {
      LineInBoundingBox(x1, y1, x2, y2, x, y);
    }
  }

  lemma ShallowLine(x1: int, y1: int, x2: int, y2: int, x: int, y: int)
    requires x1 != x2 && y1 != y2 && Abs(x1 - x2) >= Abs(y1 - y2)
    ensures (x, y) in LinePixels(x1, y1, x2, y2) <==>
            if x1 <= x2 then x1 <= x < x2 && y == SlopeOffsets(x1, y1, x2, y2)[x - x1]
            else x2 <= x < x1 && y == SlopeOffsets(x2, y2, x1, y1)[x - x2]
  {
    LinePixelsAreOnLine(x1, y1, x2, y2, x, y);
  }

  lemma SteepLine(x1: int, y1: int, x2: int, y2: int, x: int, y: int)
    requires x1 != x2 && y1 != y2 && Abs(x1 - x2) < Abs(y1 - y2)
    ensures (x, y) in LinePixels(x1, y1, x2, y2) <==>
            if y1 <= y2 then y1 <= y < y2 && x == SlopeOffsets(y1, x1, y2, x2)[y - y1]
            else y2 <= y < y1 && x == SlopeOffsets(y2, x2, y1, x1)[y - y2]
  {
    LinePixelsAreOnLine(x1, y1, x2, y2, x, y);
  }

  lemma AxisLine(x1: int, y1: int, x2: int, y2: int, x: int, y: int)
    requires x1 == x2 || y1 == y2
    ensures (x, y) in LinePixels(x1, y1, x2, y2) <==>
            if x1 == x2 then x == x1 && Min(y1, y2) <= y < Max(y1, y2)
            else y == y1 && Min(x1, x2) <= x < Max(x1, x2)
  {
    LinePixelsAreOnLine(x1, y1, x2, y2, x, y);
  }

  class Canvas {
    const width: int
    const height: int
    const pFrame: array<bv8>

    constructor (w: nat, h: nat)
      requires h % 8 == 0
      ensures Valid() && width == w && height == h && fresh(pFrame)
    {
      width, height := w, h;
      pFrame := new bv8[w * (h / 8)](_ => 0);
    }

    ghost predicate Valid()
      reads pFrame
    {
      IsFrame(pFrame[..], width, height)
    }

    /** The black pixels. */
    ghost function Picture(): set<Pixel>
      requires Valid()
      reads pFrame
    {
      Decode(pFrame[..], width, height)
    }

    ghost predicate Fits(pixels: set<Pixel>) {
      forall p :: p in pixels ==> InCanvas(width, height, p.0, p.1)
    }

    /** Sets or clears the bit of pixel (x, y); all other bits stay. */
    method DrawPixelBit(x: int, y: int, color: int)
      requires Valid() && InCanvas(width, height, x, y)
      modifies pFrame
      ensures pFrame[..] == Write(old(pFrame[..]), width, height, x, y, color)
    {
      CellInFrame(width, height, x, y);
      var nLine := y / 8;
      var mask := Mask(y % 8);
      var cell := width * nLine + x;
      if color == 0 {
        pFrame[cell] := pFrame[cell] & !mask;
      } else {
        pFrame[cell] := pFrame[cell] | mask;
      }
    }

    method DrawPixel(x: int, y: int, color: int)
      requires Valid() && InCanvas(width, height, x, y)
      modifies pFrame
      ensures Valid() && Picture() == Paint(old(Picture()), {(x, y)}, color)
      ensures BitWritten(old(pFrame[..]), pFrame[..], width * (y / 8) + x, [1, 2, 4, 8, 16, 32, 64, 128][y % 8], color)
    {
      WritePaints(pFrame[..], width, height, x, y, color);
      CellInFrame(width, height, x, y);
      MaskIsPower(y % 8);
      DrawPixelBit(x, y, color);
    }

    /** One more pixel of the set to be painted. */
    method DrawOneOf(x: int, y: int, color: int, ghost start: set<Pixel>, ghost done: set<Pixel>)
      requires Valid() && InCanvas(width, height, x, y) && Picture() == Paint(start, done, color)
      modifies pFrame
      ensures Valid() && Picture() == Paint(start, done + {(x, y)}, color)
    {
      DrawPixel(x, y, color);
      PaintMore(start, done, {(x, y)}, color);
    }

    method DrawVertical(x: int, yStart: int, yEnd: int, color: int, ghost pixels: set<Pixel>)
      requires Valid() && yStart <= yEnd && Fits(pixels)
      requires forall p :: p in pixels <==> p.0 == x && yStart <= p.1 < yEnd
      modifies pFrame
      ensures Valid() && Picture() == Paint(old(Picture()), pixels, color)
    {
      ghost var done: set<Pixel> := {};
      for y := yStart to yEnd
        invariant Valid() && Picture() == Paint(old(Picture()), done, color)
        invariant forall p :: p in done <==> p.0 == x && yStart <= p.1 < y
      {
        assert (x, y) in pixels;
        DrawOneOf(x, y, color, old(Picture()), done);
        done := done + {(x, y)};
      }
      assert done == pixels;
    }

    method DrawHorizontal(y: int, xStart: int, xEnd: int, color: int, ghost pixels: set<Pixel>)
      requires Valid() && xStart <= xEnd && Fits(pixels)
      requires forall p :: p in pixels <==> p.1 == y && xStart <= p.0 < xEnd
      modifies pFrame
      ensures Valid() && Picture() == Paint(old(Picture()), pixels, color)
    {
      ghost var done: set<Pixel> := {};
      for x := xStart to xEnd
        invariant Valid() && Picture() == Paint(old(Picture()), done, color)
        invariant forall p :: p in done <==> p.1 == y && xStart <= p.0 < x
      {
        assert (x, y) in pixels;
        DrawOneOf(x, y, color, old(Picture()), done);
        done := done + {(x, y)};
      }
      assert done == pixels;
    }

    /** A sloped line that runs along the columns; rows lists its row in each. */
    method DrawShallow(xStart: int, yStart: int, xEnd: int, yEnd: int, color: int,
                       ghost pixels: set<Pixel>, ghost rows: seq<int>, ghost accs: seq<int>)
      requires Valid() && xStart < xEnd && Fits(pixels)
      requires Follows(rows, accs, yStart, yEnd, xEnd - xStart, Abs(yEnd - yStart))
      requires forall p :: p in pixels <==> xStart <= p.0 < xEnd && p.1 == rows[p.0 - xStart]
      modifies pFrame
      ensures Valid() && Picture() == Paint(old(Picture()), pixels, color)
    {
      var xDelta := xEnd - xStart;
      var yDelta := yEnd - yStart;
      var inc := if yDelta >= 0 then 1 else -1;
      yDelta := Abs(yDelta);
      var acc := xDelta / 2;
      var y := yStart;
      ghost var done: set<Pixel> := {};
      for x := xStart to xEnd
        invariant Valid() && Picture() == Paint(old(Picture()), done, color)
        invariant forall p :: p in done <==> p in pixels && p.0 < x
        invariant acc == accs[x - xStart] && (x < xEnd ==> y == rows[x - xStart])
      {
        assert (x, y) in pixels;
        DrawOneOf(x, y, color, old(Picture()), done);
        done := done + {(x, y)};
        acc := acc + yDelta;
        if acc >= xDelta {
          y := y + inc;
          acc := acc - xDelta;
        }
      }
      assert done == pixels;
    }

    /** A sloped line that runs along the rows; columns lists its column in each. */
    method DrawSteep(xStart: int, yStart: int, xEnd: int, yEnd: int, color: int,
                     ghost pixels: set<Pixel>, ghost columns: seq<int>, ghost accs: seq<int>)
      requires Valid() && yStart < yEnd && Fits(pixels)
      requires Follows(columns, accs, xStart, xEnd, yEnd - yStart, Abs(xEnd - xStart))
      requires forall p :: p in pixels <==> yStart <= p.1 < yEnd && p.0 == columns[p.1 - yStart]
      modifies pFrame
      ensures Valid() && Picture() == Paint(old(Picture()), pixels, color)
    {
      var yDelta := yEnd - yStart;
      var xDelta := xEnd - xStart;
      var inc := if xDelta >= 0 then 1 else -1;
      xDelta := Abs(xDelta);
      var acc := yDelta / 2;
      var x := xStart;
      ghost var done: set<Pixel> := {};
      for y := yStart to yEnd
        invariant Valid() && Picture() == Paint(old(Picture()), done, color)
        invariant forall p :: p in done <==> p in pixels && p.1 < y
        invariant acc == accs[y - yStart] && (y < yEnd ==> x == columns[y - yStart])
      {
        assert (x, y) in pixels;
        DrawOneOf(x, y, color, old(Picture()), done);
        done := done + {(x, y)};
        acc := acc + xDelta;
        if acc >= yDelta {
          x := x + inc;
          acc := acc - yDelta;
        }
      }
      assert done == pixels;
    }

    /** Paints exactly the pixels of the line, provided they are all in the canvas. */
    method DrawLine(x1: int, y1: int, x2: int, y2: int, color: int)
      requires Valid() && Fits(LinePixels(x1, y1, x2, y2))
      modifies pFrame
      ensures Valid() && Picture() == Paint(old(Picture()), LinePixels(x1, y1, x2, y2), color)
    {
      if x1 == x2 || y1 == y2 {
        DrawAxis(x1, y1, x2, y2, color);
      } else if Abs(x1 - x2) >= Abs(y1 - y2) {
        DrawAlongX(x1, y1, x2, y2, color);
      } else {
        DrawAlongY(x1, y1, x2, y2, color);
      }
    }

    /** The branch of DrawLine for lines that are at least as wide as high. */
    method DrawAlongX(x1: int, y1: int, x2: int, y2: int, color: int)
      requires Valid() && Fits(LinePixels(x1, y1, x2, y2)) && x1 != x2 && y1 != y2 && Abs(x1 - x2) >= Abs(y1 - y2)
      modifies pFrame
      ensures Valid() && Picture() == Paint(old(Picture()), LinePixels(x1, y1, x2, y2), color)
    {
      var xStart, yStart, xEnd, yEnd := x2, y2, x1, y1;
      if x1 <= x2 {
        xStart, yStart, xEnd, yEnd := x1, y1, x2, y2;
      }
      ghost var pixels, rows := LinePixels(x1, y1, x2, y2), SlopeOffsets(xStart, yStart, xEnd, yEnd);
      SlopeFollows(xStart, yStart, xEnd, yEnd);
      forall p: Pixel ensures p in pixels <==> xStart <= p.0 < xEnd && p.1 == rows[p.0 - xStart] {
        ShallowLine(x1, y1, x2, y2, p.0, p.1);
      }
      DrawShallow(xStart, yStart, xEnd, yEnd, color, pixels, rows, Accs(xEnd - xStart, Abs(yEnd - yStart)));
    }

    /** The branch of DrawLine for lines that are higher than wide. */
    method DrawAlongY(x1: int, y1: int, x2: int, y2: int, color: int)
      requires Valid() && Fits(LinePixels(x1, y1, x2, y2)) && x1 != x2 && y1 != y2 && Abs(x1 - x2) < Abs(y1 - y2)
      modifies pFrame
      ensures Valid() && Picture() == Paint(old(Picture()), LinePixels(x1, y1, x2, y2), color)
    {
      var xStart, yStart, xEnd, yEnd := x2, y2, x1, y1;
      if y1 <= y2 {
        xStart, yStart, xEnd, yEnd := x1, y1, x2, y2;
      }
      ghost var pixels, columns := LinePixels(x1, y1, x2, y2), SlopeOffsets(yStart, xStart, yEnd, xEnd);
      SlopeFollows(yStart, xStart, yEnd, xEnd);
      forall p: Pixel ensures p in pixels <==> yStart <= p.1 < yEnd && p.0 == columns[p.1 - yStart] {
        SteepLine(x1, y1, x2, y2, p.0, p.1);
      }
      DrawSteep(xStart, yStart, xEnd, yEnd, color, pixels, columns, Accs(yEnd - yStart, Abs(xEnd - xStart)));
    }

    /** The branches of DrawLine for vertical and horizontal lines. */
    method DrawAxis(x1: int, y1: int, x2: int, y2: int, color: int)
      requires Valid() && Fits(LinePixels(x1, y1, x2, y2)) && (x1 == x2 || y1 == y2)
      modifies pFrame
      ensures Valid() && Picture() == Paint(old(Picture()), LinePixels(x1, y1, x2, y2), color)
    {
      ghost var pixels := LinePixels(x1, y1, x2, y2);
      forall p: Pixel
        ensures p in pixels <==> if x1 == x2 then p.0 == x1 && Min(y1, y2) <= p.1 < Max(y1, y2)
                                 else p.1 == y1 && Min(x1, x2) <= p.0 < Max(x1, x2)
      {
        AxisLine(x1, y1, x2, y2, p.0, p.1);
      }
      if x1 == x2 {
        DrawVertical(x1, Min(y1, y2), Max(y1, y2), color, pixels);
      } else {
        DrawHorizontal(y1, Min(x1, x2), Max(x1, x2), color, pixels);
      }
    }

    method DrawTwo(x: int, y: int, x': int, y': int, color: int, ghost start: set<Pixel>, ghost done: set<Pixel>)
      requires Valid() && InCanvas(width, height, x, y) && InCanvas(width, height, x', y')
      requires Picture() == Paint(start, done, color)
      modifies pFrame
      ensures Valid() && Picture() == Paint(start, done + {(x, y)} + {(x', y')}, color)
    {
      DrawOneOf(x, y, color, start, done);
      DrawOneOf(x', y', color, start, done + {(x, y)});
    }

    /** Four of the reflections of one point of the octant: those with dx and dy, which
        are x and y or their negatives, as the vertical distances from the centre. */
    method DrawFour(x0: int, y0: int, x: int, y: int, dx: int, dy: int, color: int,
                    ghost start: set<Pixel>, ghost done: set<Pixel>)
      requires Valid() && Picture() == Paint(start, done, color)
      requires FourFit(x0, y0, x, y, dx, dy)
      modifies pFrame
      ensures Valid() && Picture() == Paint(start, done + Four(x0, y0, x, y, dx, dy), color)
    {
      DrawTwo(x + x0, dy + y0, y + x0, dx + y0, color, start, done);
      DrawTwo(-x + x0, dy + y0, -y + x0, dx + y0, color, start, done + {(x + x0, dy + y0)} + {(y + x0, dx + y0)});
      AddedFour(done, x0, y0, x, y, dx, dy);
    }

    /** One point of the octant, reflected into all eight. */
    method DrawEight(x0: int, y0: int, x: int, y: int, color: int)
      requires Valid() && FourFit(x0, y0, x, y, x, y) && FourFit(x0, y0, x, y, -x, -y)
      modifies pFrame
      ensures Valid()
      ensures Picture() == Paint(old(Picture()), {} + Four(x0, y0, x, y, x, y) + Four(x0, y0, x, y, -x, -y), color)
    {
      ghost var start := Picture();
      PaintNothing(start, color);
      DrawFour(x0, y0, x, y, x, y, color, start, {});
      DrawFour(x0, y0, x, y, -x, -y, color, start, {} + Four(x0, y0, x, y, x, y));
    }

    predicate FourFit(x0: int, y0: int, x: int, y: int, dx: int, dy: int) {
      && InCanvas(width, height, x + x0, dy + y0) && InCanvas(width, height, y + x0, dx + y0)
      && InCanvas(width, height, -x + x0, dy + y0) && InCanvas(width, height, -y + x0, dx + y0)
    }

    /** One row of the octant. */
    method DrawRow(x0: int, y0: int, r: int, x: int, y: int, color: int, ghost start: set<Pixel>)
      requires Valid() && Fits(CirclePixels(x0, y0, r)) && OnOctant(r, x, y)
      requires Picture() == Paint(start, RowsBelow(x0, y0, r, y), color)
      modifies pFrame
      ensures Valid() && Picture() == Paint(start, RowsBelow(x0, y0, r, y + 1), color)
    {
      EightIsRow(x0, y0, r, x, y);
      EightFit(x0, y0, x, y);
      TwiceFour(x0, y0, x, y);
      DrawEight(x0, y0, x, y, color);
      PaintMore(start, RowsBelow(x0, y0, r, y), Eight(x0, y0, x, y), color);
    }

    lemma EightFit(x0: int, y0: int, x: int, y: int)
      requires Fits(Eight(x0, y0, x, y))
      ensures FourFit(x0, y0, x, y, x, y) && FourFit(x0, y0, x, y, -x, -y)
    {
      var e := Eight(x0, y0, x, y);
      assert (x + x0, y + y0) in e && (-x + x0, y + y0) in e && (x + x0, -y + y0) in e && (-x + x0, -y + y0) in e;
      assert (y + x0, x + y0) in e && (-y + x0, x + y0) in e && (y + x0, -x + y0) in e && (-y + x0, -x + y0) in e;
    }

    /** Paints exactly the pixels of the circle, provided they are all in the canvas. */
    method DrawCircle(x0: int, y0: int, radius: int, color: int)
      requires Valid() && Fits(CirclePixels(x0, y0, radius))
      modifies pFrame
      ensures Valid() && Picture() == Paint(old(Picture()), CirclePixels(x0, y0, radius), color)
    {
      NoRows(x0, y0, radius);
      var x, y := radius, 0;
      var radiusError := 1 - x;
      while x >= y
        invariant y >= 0 && Valid() && Picture() == Paint(old(Picture()), RowsBelow(x0, y0, radius, y), color)
        invariant radiusError == RadiusError(radius, x, y)
        invariant x >= y ==> OnOctant(radius, x, y)
        invariant x < y ==> RowsBelow(x0, y0, radius, y) == CirclePixels(x0, y0, radius)
        decreases x - y
      {
        DrawRow(x0, y0, radius, x, y, color, old(Picture()));
        NextRow(x0, y0, radius, x, y);
        y := y + 1;
        if radiusError < 0 {
          radiusError := radiusError + 2 * y + 1;
        } else {
          x := x - 1;
          radiusError := radiusError + 2 * (y - x) + 1;
        }
      }
    }
  }

  // ---------- sets of circle pixels ----------

  ghost function CirclePixels(x0: int, y0: int, r: int): set<Pixel> {
    set x, y | x0 - r <= x <= x0 + r && y0 - r <= y <= y0 + r && OnCircle(r, x - x0, y - y0) :: (x, y)
  }

  lemma CirclePixelsAreOnCircle(x0: int, y0: int, r: int, x: int, y: int)
    ensures (x, y) in CirclePixels(x0, y0, r) <==> OnCircle(r, x - x0, y - y0)
  {
    if OnCircle(r, x - x0, y - y0) {
      OctantWithinRadius(r, Max(Abs(x - x0), Abs(y - y0)), Min(Abs(x - x0), Abs(y - y0)));
    }
  }

  /** The pixels that belong to the octant rows before row y. */
  ghost function RowsBelow(x0: int, y0: int, r: int, y: int): set<Pixel> {
    set p | p in CirclePixels(x0, y0, r) && Min(Abs(p.0 - x0), Abs(p.1 - y0)) < y
  }

  lemma NoRows(x0: int, y0: int, r: int)
    ensures RowsBelow(x0, y0, r, 0) == {}
    ensures r < 0 ==> CirclePixels(x0, y0, r) == {}
  {
  }

  /** The eight reflections of (x, y) about the centre. */
  function Eight(x0: int, y0: int, x: int, y: int): set<Pixel> {
    {(x + x0, y + y0), (y + x0, x + y0), (-x + x0, y + y0), (-y + x0, x + y0),
     (-x + x0, -y + y0), (-y + x0, -x + y0), (x + x0, -y + y0), (y + x0, -x + y0)}
  }

  function Four(x0: int, y0: int, x: int, y: int, dx: int, dy: int): set<Pixel> {
    {(x + x0, dy + y0), (y + x0, dx + y0), (-x + x0, dy + y0), (-y + x0, dx + y0)}
  }

  lemma AddedFour(done: set<Pixel>, x0: int, y0: int, x: int, y: int, dx: int, dy: int)
    ensures done + {(x + x0, dy + y0)} + {(y + x0, dx + y0)} + {(-x + x0, dy + y0)} + {(-y + x0, dx + y0)}
            == done + Four(x0, y0, x, y, dx, dy)
  {
  }

  lemma PaintNothing(start: set<Pixel>, color: int)
    ensures Paint(start, {}, color) == start
  {
  }

  lemma TwiceFour(x0: int, y0: int, x: int, y: int)
    ensures {} + Four(x0, y0, x, y, x, y) + Four(x0, y0, x, y, -x, -y) == Eight(x0, y0, x, y)
  {
  }

  lemma Reflections(x0: int, y0: int, x: int, y: int, p: Pixel)
    requires 0 <= y <= x
    ensures p in Eight(x0, y0, x, y) <==>
            (Abs(p.0 - x0) == x && Abs(p.1 - y0) == y) || (Abs(p.0 - x0) == y && Abs(p.1 - y0) == x)
  {
    assert p == (p.0, p.1);
  }

  /** The eight reflections of the octant point on row y are the pixels of that row. */
  lemma EightIsRow(x0: int, y0: int, r: int, x: int, y: int)
    requires OnOctant(r, x, y)
    ensures Eight(x0, y0, x, y) <= CirclePixels(x0, y0, r)
    ensures RowsBelow(x0, y0, r, y) + Eight(x0, y0, x, y) == RowsBelow(x0, y0, r, y + 1)
  {
    forall p: Pixel
      ensures p in Eight(x0, y0, x, y) <==>
              p in CirclePixels(x0, y0, r) && Min(Abs(p.0 - x0), Abs(p.1 - y0)) == y
    {
      OnRow(x0, y0, r, x, y, p);
    }
  }

  lemma OnRow(x0: int, y0: int, r: int, x: int, y: int, p: Pixel)
    requires OnOctant(r, x, y)
    ensures p in Eight(x0, y0, x, y) <==>
            p in CirclePixels(x0, y0, r) && Min(Abs(p.0 - x0), Abs(p.1 - y0)) == y
  {
    CirclePixelsAreOnCircle(x0, y0, r, p.0, p.1);
    Reflections(x0, y0, x, y, p);
    var mx, mn := Max(Abs(p.0 - x0), Abs(p.1 - y0)), Min(Abs(p.0 - x0), Abs(p.1 - y0));
    if OnOctant(r, mx, mn) && mn == y {
      OctantUnique(r, x, mx, y);
    }
  }

  /** What a step of the circle loop leads to. */
  lemma NextRow(x0: int, y0: int, r: int, x: int, y: int)
    requires OnOctant(r, x, y)
    ensures var err := RadiusError(r, x, y);
            if err < 0 then
              && RadiusError(r, x, y + 1) == err + 2 * (y + 1) + 1
              && (x >= y + 1 ==> OnOctant(r, x, y + 1))
              && (x < y + 1 ==> RowsBelow(x0, y0, r, y + 1) == CirclePixels(x0, y0, r))
            else
              && RadiusError(r, x - 1, y + 1) == err + 2 * ((y + 1) - (x - 1)) + 1
              && (x - 1 >= y + 1 ==> OnOctant(r, x - 1, y + 1))
              && (x - 1 < y + 1 ==> RowsBelow(x0, y0, r, y + 1) == CirclePixels(x0, y0, r))
  {
    if r > 0 {
      CircleStep(r, x, y);
    }
    if (if RadiusError(r, x, y) < 0 then x else x - 1) < y + 1 {
      forall p | p in CirclePixels(x0, y0, r) ensures Min(Abs(p.0 - x0), Abs(p.1 - y0)) < y + 1 {
        CirclePixelsAreOnCircle(x0, y0, r, p.0, p.1);
        if r > 0 && Min(Abs(p.0 - x0), Abs(p.1 - y0)) > y {
          CircleComplete(r, x, y, Max(Abs(p.0 - x0), Abs(p.1 - y0)), Min(Abs(p.0 - x0), Abs(p.1 - y0)));
        }
      }
    }
  }

  /** A circle fits exactly if its centre is at least the radius from every edge. */
  lemma CircleFits(c: Canvas, x0: int, y0: int, r: nat)
    ensures c.Fits(CirclePixels(x0, y0, r)) <==> r <= x0 < c.width - r && r <= y0 < c.height - r
  {
    var a, b := (x0 - r, y0), (x0 + r, y0);
    var e, f := (x0, y0 - r), (x0, y0 + r);
    assert OnOctant(r, r, 0);
    CirclePixelsAreOnCircle(x0, y0, r, x0 - r, y0);
    CirclePixelsAreOnCircle(x0, y0, r, x0 + r, y0);
    CirclePixelsAreOnCircle(x0, y0, r, x0, y0 - r);
    CirclePixelsAreOnCircle(x0, y0, r, x0, y0 + r);
    assert a in CirclePixels(x0, y0, r) && b in CirclePixels(x0, y0, r);
    assert e in CirclePixels(x0, y0, r) && f in CirclePixels(x0, y0, r);
  }

  /** A line fits if its end points do. */
  lemma LineFits(c: Canvas, x1: int, y1: int, x2: int, y2: int)
    requires InCanvas(c.width, c.height, x1, y1) && InCanvas(c.width, c.height, x2, y2)
    ensures c.Fits(LinePixels(x1, y1, x2, y2))
  {
    forall p | p in LinePixels(x1, y1, x2, y2) ensures InCanvas(c.width, c.height, p.0, p.1) {
      LineInBoundingBox(x1, y1, x2, y2, p.0, p.1);
    }
  }
}
