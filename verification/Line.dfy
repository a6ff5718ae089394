/**
 * Bresenham's line (src/gui/render_utils.rs:75-101).  The loop carries an error term and no
 * step counter; it draws exactly the points of the ideal line, rounded to the nearest pixel.
 */
module Line {
  import opened Bytes

  newtype i32 = v: int | -0x8000_0000 <= v < 0x8000_0000

  const MAX_COORDINATE := 0x1000_0000

  function Abs(a: int): nat {
    if a < 0 then -a else a
  }

  function Max(a: nat, b: nat): nat {
    if a < b then b else a
  }

  // ----- the ideal line -----

  /** `num / den` to the nearest integer, halves downwards. */
  function Rounded(num: nat, den: nat): nat
    requires den > 0
  {
    (2 * num + den - 1) / (2 * den)
  }

  /** After `n` steps along the longer axis: how far along x. */
  function XSteps(dx: nat, dy: nat, n: nat): nat {
    if dx >= dy then n else Rounded(dx * n, dy)
  }

  function YSteps(dx: nat, dy: nat, n: nat): nat {
    if dx < dy then n else if dx == 0 then 0 else Rounded(dy * n, dx)
  }

  datatype Point = Point(x: int, y: int)

  datatype Segment = Segment(x1: int, y1: int, x2: int, y2: int) {
    function Dx(): nat { Abs(x2 - x1) }
    function Dy(): nat { Abs(y2 - y1) }
    function Sx(): int { if x1 < x2 then 1 else -1 }
    function Sy(): int { if y1 < y2 then 1 else -1 }
    function Length(): nat { Max(Dx(), Dy()) }

    /** The `n`-th point of the segment. */
    function At(n: nat): Point {
      Point(x1 + Sx() * XSteps(Dx(), Dy(), n), y1 + Sy() * YSteps(Dx(), Dy(), n))
    }

    predicate InRange() {
      Abs(x1) <= MAX_COORDINATE && Abs(y1) <= MAX_COORDINATE && Abs(x2) <= MAX_COORDINATE && Abs(y2) <= MAX_COORDINATE
    }
  }

  lemma RoundedIs(num: nat, den: nat, r: int)
    requires den > 0
    ensures Rounded(num, den) == r <==> 0 <= 2 * (den * r - num) + den < 2 * den
  {
    var q := Rounded(num, den);
    var top, d := 2 * num + den - 1, 2 * den;
    DivisionIs(top, d, q);
    DivisionIs(top, d, r);
    assert d * q == 2 * (den * q) && d * r == 2 * (den * r);
  }

  /** Half-pixel accuracy at every step, on both axes. */
  lemma WithinHalfAPixel(dx: nat, dy: nat, n: nat)
    ensures 2 * Abs(dx * YSteps(dx, dy, n) - dy * XSteps(dx, dy, n)) <= Max(dx, dy)
  {
    if dx < dy {
      RoundedIs(dx * n, dy, XSteps(dx, dy, n));
    } else if dx > 0 {
      RoundedIs(dy * n, dx, YSteps(dx, dy, n));
    }
  }

  lemma StepsWithin(dx: nat, dy: nat, n: nat)
    requires n <= Max(dx, dy)
    ensures XSteps(dx, dy, 0) == 0 && YSteps(dx, dy, 0) == 0
    ensures XSteps(dx, dy, n) <= dx && YSteps(dx, dy, n) <= dy
    ensures XSteps(dx, dy, n) == dx && YSteps(dx, dy, n) == dy <==> n == Max(dx, dy)
  {
    hide Rounded;
    if dx < dy {
      MinorWithin(dx, dy, n);
    } else if dx > 0 {
      MinorWithin(dy, dx, n);
    }
  }

  lemma MinorWithin(minor: nat, major: nat, n: nat)
    requires major > 0 && n <= major
    ensures Rounded(minor * 0, major) == 0 && Rounded(minor * major, major) == minor && Rounded(minor * n, major) <= minor
  {
    RoundedIs(0, major, 0);
    RoundedIs(minor * major, major, minor);
    RoundedMonotone(minor * n, minor * major, major);
  }

  /** Along one axis. */
  lemma AxisEnd(a: int, b: int, i: nat)
    requires i <= Abs(b - a)
    ensures var here := a + (if a < b then 1 else -1) * i;
            (here == b <==> i == Abs(b - a)) && (if a < b then a <= here <= b else b <= here <= a)
  {
  }

  /**
   * The line starts at the first end, stays inside the box of its ends, and is at the other
   * end after `Length` steps and not before.
   */
  lemma EndsAtTheEnds(s: Segment, n: nat)
    requires n <= s.Length()
    ensures s.At(0) == Point(s.x1, s.y1) && (s.At(n) == Point(s.x2, s.y2) <==> n == s.Length())
    ensures if s.x1 < s.x2 then s.x1 <= s.At(n).x <= s.x2 else s.x2 <= s.At(n).x <= s.x1
    ensures if s.y1 < s.y2 then s.y1 <= s.At(n).y <= s.y2 else s.y2 <= s.At(n).y <= s.y1
  {
    hide XSteps, YSteps;
    StepsWithin(s.Dx(), s.Dy(), n);
    AxisEnd(s.x1, s.x2, XSteps(s.Dx(), s.Dy(), n));
    AxisEnd(s.y1, s.y2, YSteps(s.Dx(), s.Dy(), n));
  }

  lemma RoundedMonotone(a: nat, b: nat, den: nat)
    requires den > 0 && a <= b
    ensures Rounded(a, den) <= Rounded(b, den)
  {
    QuotientMonotone(2 * a + den - 1, 2 * b + den - 1, 2 * den);
  }

  lemma QuotientMonotone(a: nat, b: nat, d: nat)
    requires d > 0 && a <= b
    ensures a / d <= b / d
  {
    var p, q := a / d, b / d;
    assert d * (p - q) == d * p - d * q;
    assert d * (p - q) < d;
    assert p - q >= 1 ==> d * (p - q) >= d;
  }

  // ----- one turn of the loop -----

  /** The error term after `n` steps. */
  function Error(dx: nat, dy: nat, n: nat): int {
    dx * YSteps(dx, dy, n) - dy * XSteps(dx, dy, n) + dx - dy
  }

  /** When y is the longer axis: `i` is the rounded position, and the error term tells whether to move it. */
  lemma MinorStep(minor: nat, major: nat, n: nat, i: nat, move: bool)
    requires minor < major && i == Rounded(minor * n, major)
    requires move <==> 2 * (minor * n - major * i + minor) > major
    ensures Rounded(minor * (n + 1), major) == i + (if move then 1 else 0)
  {
    hide Rounded;
    RoundedIs(minor * n, major, i);
    Spread(minor, n);
    Spread(major, i);
    RoundedIs(minor * (n + 1), major, i + (if move then 1 else 0));
  }

  lemma DiagonalStep(d: nat, n: nat)
    requires d > 0
    ensures Rounded(d * n, d) == n
  {
    RoundedIs(d * n, d, n);
  }

  /** The error term decides both axes correctly. */
  lemma ErrorDecides(dx: nat, dy: nat, n: nat)
    requires n < Max(dx, dy)
    ensures var e2 := 2 * Error(dx, dy, n);
            && XSteps(dx, dy, n + 1) == XSteps(dx, dy, n) + (if e2 + dy > 0 then 1 else 0)
            && YSteps(dx, dy, n + 1) == YSteps(dx, dy, n) + (if e2 < dx then 1 else 0)
  {
    hide Rounded;
    var e2 := 2 * Error(dx, dy, n);
    if dx < dy {
      RoundedIs(dx * n, dy, XSteps(dx, dy, n));
      MinorStep(dx, dy, n, XSteps(dx, dy, n), e2 + dy > 0);
    } else if dx == dy {
      DiagonalStep(dx, n);
      DiagonalStep(dx, n + 1);
    } else {
      RoundedIs(dy * n, dx, YSteps(dx, dy, n));
      MinorStep(dy, dx, n, YSteps(dx, dy, n), e2 < dx);
    }
  }

  /** The error term follows the two moves. */
  lemma ErrorFollows(s: Segment, n: nat)
    requires n < s.Length()
    ensures var e := Error(s.Dx(), s.Dy(), n);
            Error(s.Dx(), s.Dy(), n + 1) == e - (if 2 * e + s.Dy() > 0 then s.Dy() else 0) + (if 2 * e < s.Dx() then s.Dx() else 0)
  {
    hide XSteps, YSteps, Segment.Dx, Segment.Dy;
    ErrorDecides(s.Dx(), s.Dy(), n);
    Spread(s.Dx(), YSteps(s.Dx(), s.Dy(), n));
    Spread(s.Dy(), XSteps(s.Dx(), s.Dy(), n));
  }

  /** So does the point. */
  lemma PointFollows(s: Segment, n: nat)
    requires n < s.Length()
    ensures var e2 := 2 * Error(s.Dx(), s.Dy(), n);
            s.At(n + 1) == Point(s.At(n).x + (if e2 + s.Dy() > 0 then s.Sx() else 0), s.At(n).y + (if e2 < s.Dx() then s.Sy() else 0))
  {
    hide XSteps, YSteps, Error;
    ErrorDecides(s.Dx(), s.Dy(), n);
  }

  lemma ErrorBound(dx: nat, dy: nat, n: nat)
    ensures 2 * Abs(Error(dx, dy, n)) <= 3 * Max(dx, dy)
  {
    WithinHalfAPixel(dx, dy, n);
  }

  lemma Spread(a: int, b: int)
    ensures a * (b + 1) == a * b + a
  {
  }

  // ----- drawing -----

  /** The place of a point in a buffer with its origin at the bottom left, if it is visible. */
  predicate Shown(p: Point, width: nat, height: nat) {
    0 <= p.x < width && 0 <= p.y < height
  }

  function Index(p: Point, width: nat, height: nat): int {
    (height - 1 - p.y) * width + p.x
  }

  /** Pixel `k` is under one of the points before step `n`. */
  ghost predicate Drawn(s: Segment, n: nat, width: nat, height: nat, k: nat) {
    exists m: nat :: m < n && DrawnAt(s, m, width, height, k)
  }

  predicate DrawnAt(s: Segment, m: nat, width: nat, height: nat, k: nat) {
    Shown(s.At(m), width, height) && Index(s.At(m), width, height) == k
  }

  lemma RowsBelow(row: nat, height: nat, width: nat)
    requires row < height
    ensures 0 <= row * width && row * width + width <= width * height
  {
    assert (row + 1) * width <= height * width;
    assert (row + 1) * width == row * width + width;
  }

  lemma IndexInside(p: Point, width: nat, height: nat)
    requires Shown(p, width, height)
    ensures 0 <= Index(p, width, height) < width * height
  {
    var row := height - 1 - p.y;
    RowsBelow(row, height, width);
  }

  /** `now` is `before` with exactly the pixels under the points before step `n` set to `color`. */
  ghost predicate Painted(before: seq<u32>, now: seq<u32>, s: Segment, n: nat, width: nat, height: nat, color: u32) {
    && |now| == |before|
    && forall k :: 0 <= k < |now| ==> now[k] == if Drawn(s, n, width, height, k) then color else before[k]
  }

  lemma PaintPoint(before: seq<u32>, now: seq<u32>, s: Segment, n: nat, width: nat, height: nat, color: u32)
    requires Painted(before, now, s, n, width, height, color) && width * height <= |now|
    ensures if Shown(s.At(n), width, height)
            then 0 <= Index(s.At(n), width, height) < |now|
                 && Painted(before, now[Index(s.At(n), width, height) := color], s, n + 1, width, height, color)
            else Painted(before, now, s, n + 1, width, height, color)
  {
    hide Segment.At, Index;
    if Shown(s.At(n), width, height) {
      IndexInside(s.At(n), width, height);
    }
    DrawnStep(s, n, width, height, |now|);
  }

  lemma PaintNothing(before: seq<u32>, s: Segment, n: nat, width: nat, height: nat, color: u32)
    requires n == 0 || width == 0 || height == 0
    ensures Painted(before, before, s, n, width, height, color)
  {
  }

  lemma Start(s: Segment)
    ensures Error(s.Dx(), s.Dy(), 0) == s.Dx() - s.Dy()
  {
    hide XSteps, YSteps;
    StepsWithin(s.Dx(), s.Dy(), 0);
  }

  /** Nothing in the loop leaves 30 bits, and the test for the last point is right. */
  lemma Ranges(s: Segment, n: nat)
    requires s.InRange() && n <= s.Length()
    ensures -0x1000_0000 <= s.At(n).x <= 0x1000_0000 && -0x1000_0000 <= s.At(n).y <= 0x1000_0000
    ensures s.Dx() <= 0x2000_0000 && s.Dy() <= 0x2000_0000
    ensures -0x3000_0000 <= Error(s.Dx(), s.Dy(), n) <= 0x3000_0000
    ensures s.At(0) == Point(s.x1, s.y1) && (s.At(n) == Point(s.x2, s.y2) <==> n == s.Length())
  {
    hide Error, Segment.At;
    EndsAtTheEnds(s, n);
    ErrorBound(s.Dx(), s.Dy(), n);
  }

  lemma DrawnStep(s: Segment, n: nat, width: nat, height: nat, size: nat)
    ensures forall k :: 0 <= k < size ==>
              (Drawn(s, n + 1, width, height, k) <==> Drawn(s, n, width, height, k) || DrawnAt(s, n, width, height, k))
  {
    forall k | 0 <= k < size
      ensures Drawn(s, n + 1, width, height, k) <==> Drawn(s, n, width, height, k) || DrawnAt(s, n, width, height, k)
    {
      if Drawn(s, n, width, height, k) {
        var m: nat :| m < n && DrawnAt(s, m, width, height, k);
        assert m < n + 1;
      }
    }
  }

  /** The clipped write of one pixel. */
  method Plot(buf: array<u32>, width: u32, height: u32, x: i32, y: i32, color: u32)
    requires width <= 0x4000_0000 && height <= 0x4000_0000 && width * height <= buf.Length
    requires Abs(y as int) <= MAX_COORDINATE
    modifies buf
    ensures var p := Point(x as int, y as int);
            buf[..] == if Shown(p, width, height) && 0 <= Index(p, width, height) < buf.Length
                       then old(buf[..])[Index(p, width, height) := color] else old(buf[..])
  {
    var fy := (height as i32 - 1) - y;
    if 0 <= x && x < width as i32 && 0 <= fy && fy < height as i32 {
      IndexInside(Point(x as int, y as int), width, height);
      buf[fy as int * width + x as int] := color;
    }
  }

  /**
   * Draws the segment and returns the number of steps taken.  The pixels that change are
   * exactly those under the points of the ideal line.
   */
  method RenderLine(buf: array<u32>, width: u32, height: u32, x1: i32, y1: i32, x2: i32, y2: i32, color: u32)
    returns (ghost steps: nat)
    requires width <= 0x4000_0000 && height <= 0x4000_0000 && width * height <= buf.Length && width * height < TWO32
    requires Segment(x1 as int, y1 as int, x2 as int, y2 as int).InRange()
    modifies buf
    ensures var s := Segment(x1 as int, y1 as int, x2 as int, y2 as int);
            && (width > 0 && height > 0 ==> steps == s.Length())
            && Painted(old(buf[..]), buf[..], s, s.Length() + 1, width, height, color)
  {
    hide Rounded, XSteps, YSteps, Error, Painted, Segment.At, Index, Shown, Segment.Length, Max;
    ghost var s := Segment(x1 as int, y1 as int, x2 as int, y2 as int);
    steps := 0;
    if width == 0 || height == 0 {
      PaintNothing(buf[..], s, s.Length() + 1, width, height, color);
      return;
    }
    var x, y := x1, y1;
    var dx: i32 := if x2 - x1 < 0 then -(x2 - x1) else x2 - x1;
    var dy: i32 := if y2 - y1 < 0 then -(y2 - y1) else y2 - y1;
    var sx: i32 := if x1 < x2 then 1 else -1;
    var sy: i32 := if y1 < y2 then 1 else -1;
    var err := dx - dy;
    Ranges(s, 0);
    Start(s);
    PaintNothing(buf[..], s, 0, width, height, color);
    assert dx as int == s.Dx() && dy as int == s.Dy() && sx as int == s.Sx() && sy as int == s.Sy();
    hide Segment.Dx, Segment.Dy, Segment.Sx, Segment.Sy;
    while true
      invariant steps <= s.Length() && Point(x as int, y as int) == s.At(steps)
      invariant err as int == Error(s.Dx(), s.Dy(), steps)
      invariant Painted(old(buf[..]), buf[..], s, steps, width, height, color)
      decreases s.Length() - steps
    {
      Ranges(s, steps);
      PaintPoint(old(buf[..]), buf[..], s, steps, width, height, color);
      Plot(buf, width, height, x, y, color);
      if x == x2 && y == y2 {
        break;
      }
      ErrorFollows(s, steps);
      PointFollows(s, steps);
      Ranges(s, steps + 1);
      var e2 := 2 * err;
      if e2 > -dy {
        err := err - dy;
        x := x + sx;
      }
      if e2 < dx {
        err := err + dx;
        y := y + sy;
      }
      steps := steps + 1;
    }
  }
}
