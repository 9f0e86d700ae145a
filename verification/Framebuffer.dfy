/**
 Rasterisers of the framebuffer: clipped rectangles, Bresenham's line in all
 octants with its exact error, and the filled disc found by integer roots.
 */
module Framebuffer {
  import opened Words

  type Point = (int, int)

  function Abs(v: int): nat { if v < 0 then -v else v }

  function Max(a: int, b: int): int { if a > b then a else b }

  // ----------------------------------------------------------------- the line

  /** Twice the distance, times the length of the longer side, by which j steps sideways miss the line after i along. */
  function Miss(a: nat, b: nat, i: nat, j: nat): int {
    2 * (j * a - i * b)
  }

  /** The error term that the loop carries after i steps in x and j steps in y. */
  function Err(a: nat, b: nat, i: nat, j: nat): int {
    (1 + j) * a - (1 + i) * b
  }

  /** One pass of the loop from (i, j). */
  function Advance(a: nat, b: nat, i: nat, j: nat): (nat, nat) {
    var e2 := 2 * Err(a, b, i, j);
    (if e2 >= 0 - b then i + 1 else i, if e2 <= a then j + 1 else j)
  }

  /** i steps in x and j in y stay within half a pixel of the line, measured on the shorter side. */
  predicate Close(a: nat, b: nat, i: nat, j: nat) {
    Abs(Miss(a, b, i, j)) <= Max(a, b)
  }

  /** On a line not steeper than the diagonal, y is at most half a pixel from where the ideal line has it at x = i. */
  lemma CloseIsHalfPixel(a: nat, b: nat, i: nat, j: nat)
    requires a >= b && a > 0
    ensures
      var ideal := (i * b) as real / a as real;
      Close(a, b, i, j) <==> -0.5 <= j as real - ideal <= 0.5
  {
    var p, q := j * a, i * b;
    assert j as real * a as real == p as real;
    var ideal := (i * b) as real / a as real;
    assert ideal * a as real == q as real;
    HalfOf(p, q, j as real, ideal, a as real);
    OrderAsReals(a, 2 * (p - q));
    assert Miss(a, b, i, j) == 2 * (p - q) && Max(a, b) == a;
    hide Miss;
  }

  /** On a steeper line the same holds with the sides exchanged: x is at most half a pixel from where y = j has it. */
  lemma SteepCloseIsHalfPixel(a: nat, b: nat, i: nat, j: nat)
    requires b >= a && b > 0
    ensures
      var ideal := (j * a) as real / b as real;
      Close(a, b, i, j) <==> -0.5 <= i as real - ideal <= 0.5
  {
    CloseIsHalfPixel(b, a, j, i);
    assert Miss(a, b, i, j) == -Miss(b, a, j, i);
  }

  lemma HalfOf(p: int, q: int, y: real, ideal: real, n: real)
    requires n > 0.0 && y * n == p as real && ideal * n == q as real
    ensures -0.5 <= y - ideal <= 0.5 <==> -n <= (2 * (p - q)) as real <= n
  {
    Distributes(y, ideal, n);
    TwiceAsReal(p, q);
    Scaled(y - ideal, n, p as real - q as real);
  }

  lemma TwiceAsReal(p: int, q: int)
    ensures (2 * (p - q)) as real == 2.0 * (p as real - q as real)
  {
  }

  lemma OrderAsReals(a: nat, d: int)
    ensures -(a as real) <= d as real <= a as real <==> -(a as int) <= d <= a
  {
  }

  lemma Distributes(x: real, y: real, n: real)
    ensures (x - y) * n == x * n - y * n
  {
  }

  lemma Scaled(x: real, n: real, m: real)
    requires n > 0.0 && m == x * n
    ensures -0.5 <= x <= 0.5 <==> -n <= 2.0 * m <= n
  {
    if x <= 0.5 { assert x * n <= 0.5 * n; } else { assert x * n > 0.5 * n; }
    if -0.5 <= x { assert -0.5 * n <= x * n; } else { assert -0.5 * n > x * n; }
  }

  lemma MissOf(a: nat, b: nat, i: nat, j: nat)
    ensures 2 * Err(a, b, i, j) == Miss(a, b, i, j) + 2 * a - 2 * b
    ensures Miss(a, b, i + 1, j) == Miss(a, b, i, j) - 2 * b
    ensures Miss(a, b, i, j + 1) == Miss(a, b, i, j) + 2 * a
    ensures Miss(a, b, i + 1, j + 1) == Miss(a, b, i, j) + 2 * a - 2 * b
    ensures Err(a, b, i + 1, j) == Err(a, b, i, j) - b
    ensures Err(a, b, i, j + 1) == Err(a, b, i, j) + a
    ensures Err(a, b, i + 1, j + 1) == Err(a, b, i, j) - b + a
  {
  }

  /** Every pass goes one step along the longer side and stays within half a pixel. */
  lemma AdvanceStaysClose(a: nat, b: nat, i: nat, j: nat)
    requires Close(a, b, i, j)
    ensures var (i', j') := Advance(a, b, i, j);
      && Close(a, b, i', j')
      && (if a >= b then i' == i + 1 else j' == j + 1)
  {
    MissOf(a, b, i, j);
    hide Miss, Err;
  }

  /** After as many steps along as the longer side has, a close point is the end point. */
  lemma CloseAtEnd(a: nat, b: nat, i: nat, j: nat)
    requires Close(a, b, i, j)
    ensures a >= b && i == a && a > 0 ==> j == b
    ensures b > a && j == b ==> i == a
  {
    if a >= b && i == a && a > 0 {
      assert Miss(a, b, i, j) == 2 * a * (j - b);
      SmallMultiple(a, j - b);
    }
    if b > a && j == b {
      assert Miss(a, b, i, j) == 2 * b * (a - i);
      SmallMultiple(b, a - i);
    }
  }

  lemma SmallMultiple(n: nat, d: int)
    requires n > 0 && Abs(2 * n * d) <= n
    ensures d == 0
  {
    assert d >= 1 ==> 2 * n * d >= 2 * n;
    assert d <= -1 ==> 2 * n * d <= -2 * n;
  }

  /** The points the line visits: k-th from the start, at (i, j) steps. */
  ghost predicate Follows(path: seq<Point>, x0: int, y0: int, sx: int, sy: int, a: nat, b: nat) {
    forall k :: 0 <= k < |path| ==> OnLine(path[k], k, x0, y0, sx, sy, a, b)
  }

  /** p lies k steps along the longer side from (x0, y0), and within half a pixel of the line on the shorter. */
  predicate OnLine(p: Point, k: nat, x0: int, y0: int, sx: int, sy: int, a: nat, b: nat) {
    var i, j := sx * (p.0 - x0), sy * (p.1 - y0);
    i >= 0 && j >= 0 && k == (if a >= b then i else j) && Close(a, b, i, j)
  }

  /** The loop has visited path and stands i steps in x and j in y from the start. */
  ghost predicate Track(path: seq<Point>, x0: int, y0: int, sx: int, sy: int, a: nat, b: nat, i: nat, j: nat) {
    var here := Moved(x0, y0, sx, sy, i, j);
    && Close(a, b, i, j) && |path| == (if a >= b then i else j)
    && Follows(path, x0, y0, sx, sy, a, b)
    && (forall k :: 0 < k < |path| ==> Adjacent(path[k - 1], path[k]))
    && (if path == [] then here == (x0, y0) else path[0] == (x0, y0) && Adjacent(path[|path| - 1], here))
  }

  /** The point reached is on the line, and another pass leads to a neighbour of it. */
  lemma TrackStep(path: seq<Point>, x0: int, y0: int, sx: int, sy: int, a: nat, b: nat, i: nat, j: nat)
    requires Track(path, x0, y0, sx, sy, a, b, i, j) && (sx == 1 || sx == -1) && (sy == 1 || sy == -1)
    ensures
      var here := Moved(x0, y0, sx, sy, i, j);
      var longer := path + [here];
      && OnLine(here, |path|, x0, y0, sx, sy, a, b) && Follows(longer, x0, y0, sx, sy, a, b)
      && (forall k :: 0 < k < |longer| ==> Adjacent(longer[k - 1], longer[k])) && longer[0] == (x0, y0)
    ensures
      var (i', j') := Advance(a, b, i, j);
      Track(path + [Moved(x0, y0, sx, sy, i, j)], x0, y0, sx, sy, a, b, i', j')
  {
    AdvanceStaysClose(a, b, i, j);
    var (i', j') := Advance(a, b, i, j);
    var here, there := Moved(x0, y0, sx, sy, i, j), Moved(x0, y0, sx, sy, i', j');
    MovedBack(x0, y0, sx, sy, i, j);
    assert Advanced(i, j, i', j');
    MovedOn(x0, y0, sx, sy, i, j, i', j');
    hide Close, Miss, Advance, Moved;
    assert OnLine(here, |path|, x0, y0, sx, sy, a, b);
    TrackLonger(path, here, x0, y0, sx, sy, a, b);
  }

  function Moved(x0: int, y0: int, sx: int, sy: int, i: nat, j: nat): Point {
    (x0 + sx * i, y0 + sy * j)
  }

  lemma MovedBack(x0: int, y0: int, sx: int, sy: int, i: nat, j: nat)
    requires (sx == 1 || sx == -1) && (sy == 1 || sy == -1)
    ensures var p := Moved(x0, y0, sx, sy, i, j); sx * (p.0 - x0) == i && sy * (p.1 - y0) == j
  {
  }

  predicate Advanced(i: nat, j: nat, i': nat, j': nat) {
    i <= i' <= i + 1 && j <= j' <= j + 1 && (i', j') != (i, j)
  }

  lemma MovedOn(x0: int, y0: int, sx: int, sy: int, i: nat, j: nat, i': nat, j': nat)
    requires (sx == 1 || sx == -1) && (sy == 1 || sy == -1) && Advanced(i, j, i', j')
    ensures Adjacent(Moved(x0, y0, sx, sy, i, j), Moved(x0, y0, sx, sy, i', j'))
  {
  }

  lemma TrackLonger(path: seq<Point>, p: Point, x0: int, y0: int, sx: int, sy: int, a: nat, b: nat)
    requires Follows(path, x0, y0, sx, sy, a, b) && OnLine(p, |path|, x0, y0, sx, sy, a, b)
    requires forall k :: 0 < k < |path| ==> Adjacent(path[k - 1], path[k])
    requires path != [] ==> Adjacent(path[|path| - 1], p)
    ensures Follows(path + [p], x0, y0, sx, sy, a, b)
    ensures var longer := path + [p]; forall k :: 0 < k < |longer| ==> Adjacent(longer[k - 1], longer[k])
  {
    hide OnLine, Adjacent;
  }

  lemma TrackStart(x0: int, y0: int, sx: int, sy: int, a: nat, b: nat)
    ensures Track([], x0, y0, sx, sy, a, b, 0, 0) && Err(a, b, 0, 0) == a - b
  {
  }

  /** How the loop keeps its error term. */
  lemma AdvanceIs(a: nat, b: nat, i: nat, j: nat)
    ensures
      var e := Err(a, b, i, j);
      var (i', j') := Advance(a, b, i, j);
      && i' == (if 2 * e >= 0 - b then i + 1 else i) && j' == (if 2 * e <= a then j + 1 else j)
      && Err(a, b, i', j') == e - (if i' > i then b else 0) + (if j' > j then a else 0)
  {
  }

  /** At the end point, and nowhere before, as many steps have been made as the longer side has. */
  lemma TrackEnds(path: seq<Point>, x0: int, y0: int, x1: int, y1: int, i: nat, j: nat)
    requires Track(path, x0, y0, Sign(x0, x1), Sign(y0, y1), Abs(x1 - x0), Abs(y1 - y0), i, j)
    ensures
      var longest := Max(Abs(x1 - x0), Abs(y1 - y0));
      (x0 + Sign(x0, x1) * i, y0 + Sign(y0, y1) * j) == (x1, y1) <==> |path| == longest
  {
    CloseAtEnd(Abs(x1 - x0), Abs(y1 - y0), i, j);
    hide Follows, Close;
  }

  function Sign(from: int, to: int): int { if from < to then 1 else -1 }

  /** Two pixels next to each other, by side or corner. */
  predicate Adjacent(p: Point, q: Point) {
    p != q && Abs(p.0 - q.0) <= 1 && Abs(p.1 - q.1) <= 1
  }

  // ---------------------------------------------------------------- the screen

  class Screen {
    const width: nat
    const height: nat
    const pixels: array2<uint32>  // one row per line; a row may be longer than the line

    ghost predicate Valid() reads this {
      pixels.Length0 == height && pixels.Length1 >= width
    }

    constructor (width: nat, height: nat, stride: nat)
      requires stride >= width
      ensures Valid() && this.width == width && this.height == height && fresh(pixels)
    {
      this.width := width;
      this.height := height;
      pixels := new uint32[height, stride]((_, _) => 0);
    }

    predicate OnScreen(x: int, y: int) {
      0 <= x < width && 0 <= y < height
    }

    method PutPixel(x: int, y: int, color: uint32)
      requires Valid()
      modifies pixels
      ensures forall v, u :: 0 <= v < pixels.Length0 && 0 <= u < pixels.Length1 ==>
        pixels[v, u] == if OnScreen(x, y) && (u, v) == (x, y) then color else old(pixels[v, u])
    {
      if x < 0 || y < 0 || x >= width || y >= height { return; }
      pixels[y, x] := color;
    }

    /** Colours exactly the pixels of the rectangle that are on the screen. The sums must not overflow 32 bits. */
    method FillRect(x: int, y: int, w: int, h: int, color: uint32)
      requires Valid() && x + w < 0x8000_0000 && y + h < 0x8000_0000
      modifies pixels
      ensures forall v, u :: 0 <= v < pixels.Length0 && 0 <= u < pixels.Length1 ==>
        pixels[v, u] ==
          if OnScreen(u, v) && x <= u < x + w && y <= v < y + h then color else old(pixels[v, u])
    {
      if w <= 0 || h <= 0 { return; }
      var x0 := if x < 0 then 0 else x;
      var y0 := if y < 0 then 0 else y;
      var x1 := if x + w > width then width else x + w;
      var y1 := if y + h > height then height else y + h;
      var fillWidth := x1 - x0;
      if fillWidth <= 0 || y1 <= y0 { return; }
      var py := y0;
      while py < y1
        invariant y0 <= py <= y1
        invariant forall v, u :: 0 <= v < pixels.Length0 && 0 <= u < pixels.Length1 ==>
          pixels[v, u] == if y0 <= v < py && x0 <= u < x1 then color else old(pixels[v, u])
      {
        FillRow(py, x0, fillWidth, color);
        py := py + 1;
      }
    }

    /** The string store of one row. */
    method FillRow(row: nat, from: nat, count: nat, color: uint32)
      requires Valid() && row < height && from + count <= width
      modifies pixels
      ensures forall v, u :: 0 <= v < pixels.Length0 && 0 <= u < pixels.Length1 ==>
        pixels[v, u] == if v == row && from <= u < from + count then color else old(pixels[v, u])
    {
      var i := 0;
      while i < count
        invariant 0 <= i <= count
        invariant forall v, u :: 0 <= v < pixels.Length0 && 0 <= u < pixels.Length1 ==>
          pixels[v, u] == if v == row && from <= u < from + i then color else old(pixels[v, u])
      {
        pixels[row, from + i] := color;
        i := i + 1;
      }
    }

    predicate InReach(x: int, y: int) {
      0 - width <= x <= 2 * width && 0 - height <= y <= 2 * height
    }

    /**
     Draws the line, and reports the points visited: one more than the longer
     side has steps, from end to end without a gap, each within half a pixel of
     the ideal line. Those on the screen are coloured and nothing else is.
     */
    method DrawLine(x0: int, y0: int, x1: int, y1: int, color: uint32) returns (ghost path: seq<Point>)
      requires Valid()
      modifies pixels
      ensures !(InReach(x0, y0) && InReach(x1, y1)) ==> path == []
      ensures InReach(x0, y0) && InReach(x1, y1) ==>
        var a, b := Abs(x1 - x0), Abs(y1 - y0);
        && |path| == Max(a, b) + 1 && path[0] == (x0, y0) && path[|path| - 1] == (x1, y1)
        && (forall k :: 0 < k < |path| ==> Adjacent(path[k - 1], path[k]))
        && Follows(path, x0, y0, Sign(x0, x1), Sign(y0, y1), a, b)
      ensures forall v, u :: 0 <= v < pixels.Length0 && 0 <= u < pixels.Length1 ==>
        pixels[v, u] == if OnScreen(u, v) && (u, v) in path then color else old(pixels[v, u])
    {
      hide Track, Err, Miss, Close, Follows, Advance;
      path := [];
      if !InReach(x0, y0) || !InReach(x1, y1) { return; }
      var dx, sx := Abs(x1 - x0), if x0 < x1 then 1 else -1;
      var dy, sy := 0 - Abs(y1 - y0), if y0 < y1 then 1 else -1;
      var err := dx + dy;
      var maxSteps := (if dx > 0 - dy then dx else 0 - dy) + 2;
      var x, y, step := x0, y0, 0;
      ghost var a: nat, b: nat, i: nat, j: nat := dx, 0 - dy, 0, 0;
      TrackStart(x0, y0, sx, sy, a, b);
      while step < maxSteps
        invariant 0 <= step == |path| <= Max(a, b)
        invariant x == x0 + sx * i && y == y0 + sy * j && err == Err(a, b, i, j)
        invariant Track(path, x0, y0, sx, sy, a, b, i, j)
        invariant forall v, u :: 0 <= v < pixels.Length0 && 0 <= u < pixels.Length1 ==>
          pixels[v, u] == if OnScreen(u, v) && (u, v) in path then color else old(pixels[v, u])
      {
        TrackStep(path, x0, y0, sx, sy, a, b, i, j);
        TrackEnds(path, x0, y0, x1, y1, i, j);
        PutPixel(x, y, color);
        path := path + [(x, y)];
        if x == x1 && y == y1 { break; }
        ghost var next := Advance(a, b, i, j);
        AdvanceIs(a, b, i, j);
        var e2 := 2 * err;
        if e2 >= dy {
          err := err + dy;
          x := x + sx;
        }
        if e2 <= dx {
          err := err + dx;
          y := y + sy;
        }
        i, j := next.0, next.1;
        step := step + 1;
      }
    }

    method FillChord(cx: int, cy: int, r: int, dy: int, color: uint32)
      requires Valid() && Abs(cx) < 0x4000_0000 && Abs(cy) < 0x4000_0000 && 0 < r <= 2000 && -r <= dy <= r
      modifies pixels
      ensures forall v, u :: 0 <= v < pixels.Length0 && 0 <= u < pixels.Length1 ==>
        pixels[v, u] ==
          if OnScreen(u, v) && v - cy == dy && InDisc(u - cx, v - cy, r) then color else old(pixels[v, u])
    {
      hide InDisc;
      var dx := HalfChord(r, dy);
      FillRect(cx - dx, cy + dy, dx * 2 + 1, 1, color);
    }

    /** Colours exactly the pixels of the disc that are on the screen. */
    method FillCircle(cx: int, cy: int, r: int, color: uint32)
      requires Valid() && Abs(cx) < 0x4000_0000 && Abs(cy) < 0x4000_0000
      modifies pixels
      ensures forall v, u :: 0 <= v < pixels.Length0 && 0 <= u < pixels.Length1 ==>
        pixels[v, u] == if OnScreen(u, v) && InDisc(u - cx, v - cy, r) then color else old(pixels[v, u])
    {
      if r <= 0 || r > 2000 { return; }
      DiscHeight(r);
      hide InDisc;
      var dy := -r;
      while dy <= r
        invariant -r <= dy <= r + 1
        invariant forall v, u :: 0 <= v < pixels.Length0 && 0 <= u < pixels.Length1 ==>
          pixels[v, u] == if OnScreen(u, v) && v - cy < dy && InDisc(u - cx, v - cy, r) then color else old(pixels[v, u])
      {
        FillChord(cx, cy, r, dy, color);
        dy := dy + 1;
      }
    }
  }

  predicate InDisc(x: int, y: int, r: int) {
    0 < r <= 2000 && x * x + y * y <= r * r
  }

  /** The loop that counts dx up to the integer root: exactly the columns within the chord belong to the disc. */
  method HalfChord(r: int, dy: int) returns (dx: nat)
    requires 0 < r <= 2000 && -r <= dy <= r
    ensures dx <= r && forall x {:trigger InDisc(x, dy, r)} :: InDisc(x, dy, r) <==> 0 - dx <= x <= dx
  {
    SquareGrows(Abs(dy), r);
    var rem := r * r - dy * dy;
    dx := 0;
    while (dx + 1) * (dx + 1) <= rem
      invariant dx * dx <= rem && dx <= r
      decreases r - dx
    {
      RootBelow(dx + 1, r);
      dx := dx + 1;
    }
    forall x ensures InDisc(x, dy, r) <==> 0 - dx <= x <= dx {
      if Abs(x) <= dx { SquareGrows(Abs(x), dx); } else { SquareGrows(dx + 1, Abs(x)); }
    }
  }

  lemma RootBelow(n: nat, r: nat)
    requires n * n <= r * r
    ensures n <= r
  {
    assert n > r ==> n * n > r * r;
  }

  lemma DiscHeight(r: int)
    ensures forall x, y {:trigger InDisc(x, y, r)} :: InDisc(x, y, r) ==> -r <= y <= r
  {
    forall x, y | InDisc(x, y, r) ensures -r <= y <= r {
      SquareGrows(0, Abs(x));
      if Abs(y) > r { SquareGrows(r + 1, Abs(y)); }
    }
  }

  lemma SquareGrows(a: nat, b: nat)
    requires a <= b
    ensures a * a <= b * b
  {
  }
}
