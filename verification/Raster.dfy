/** Drawing lines and circles with integers only. A pixel plotted is a point appended to a sequence. */
module Raster {
  import opened Widths

  datatype Point = Point(x: int, y: int)

  function Abs(x: int): nat {
    if x < 0 then -x else x
  }

  predicate Between(a: int, b: int, c: int) {
    a <= b <= c || c <= b <= a
  }

  predicate Adjacent(p: Point, q: Point) {
    p != q && Abs(p.x - q.x) <= 1 && Abs(p.y - q.y) <= 1
  }

  // ----- circles

  /** Where the pen is relative to the centre, and its error term. */
  datatype Pen = Pen(x: int, y: int, t: int)

  function PenDown(r: int): Pen {
    Pen(r, 0, r / 16)
  }

  function Advance(p: Pen): Pen {
    var t := p.t + p.y + 1;
    if t - p.x >= 0 then Pen(p.x - 1, p.y + 1, t - p.x) else Pen(p.x, p.y + 1, t)
  }

  /** The positions of the pen until it crosses the diagonal. */
  ghost function Arc(p: Pen): (ps: seq<Pen>)
    decreases p.x - p.y + 1
  {
    if p.x < p.y then [] else [p] + Arc(Advance(p))
  }

  /** 1 + 2 + ... + n. */
  ghost function Triangle(n: int): nat {
    if n <= 0 then 0 else Triangle(n - 1) + n
  }

  lemma {:induction false} TriangleIsSquare(n: int)
    requires n >= -1
    ensures 2 * Triangle(n) == n * n + n
    decreases n + 1
  {
    if n > 0 {
      TriangleIsSquare(n - 1);
      assert n * n + n == (n - 1) * (n - 1) + (n - 1) + 2 * n;
    }
  }

  /** The error term of a pen that is down is between 0 and x, and is the sum of what has been added to
      it on the way up and taken off on the way in. */
  ghost predicate OnTrack(p: Pen, r: int) {
    && p.t - r / 16 == Triangle(p.x) + Triangle(p.y) - Triangle(r)
    && 0 <= p.t && 0 <= p.y && -1 <= p.x <= r
    && (p.y <= p.x ==> p.t <= p.x)
  }

  lemma AdvanceKeepsTrack(p: Pen, r: int)
    requires OnTrack(p, r) && p.y <= p.x
    ensures OnTrack(Advance(p), r)
  {
    assert Triangle(p.y + 1) == Triangle(p.y) + p.y + 1;
    assert Triangle(p.x) == Triangle(p.x - 1) + p.x;
  }

  /** The error term measures how far the pen is off the circle. */
  lemma ErrorTerm(p: Pen, r: int)
    requires OnTrack(p, r)
    ensures 2 * (p.t - r / 16) == p.x * p.x + p.x + p.y * p.y + p.y - r * r - r
  {
    TriangleIsSquare(p.x);
    TriangleIsSquare(p.y);
    TriangleIsSquare(r);
  }

  /** (a, b) is less than one pixel away from the circle of radius r around the origin. */
  ghost predicate NearCircle(a: int, b: int, r: int) {
    a * a + b * b < (r + 1) * (r + 1) && (r >= 1 ==> a * a + b * b > (r - 1) * (r - 1))
  }

  /** A pen that is down is less than one pixel away from the circle, outside or inside. */
  lemma WithinOnePixel(p: Pen, r: int)
    requires OnTrack(p, r) && p.y <= p.x
    ensures NearCircle(p.x, p.y, r)
  {
    ErrorTerm(p, r);
    assert (r + 1) * (r + 1) == r * r + 2 * r + 1;
    assert (r - 1) * (r - 1) == r * r - 2 * r + 1;
    if p.x == 1 && p.y == 1 && r == 1 {
      assert p.x * p.x == 1;
    }
  }

  /** Up to this radius no sum leaves 16 bits. */
  lemma SumFits(p: Pen, r: int)
    requires OnTrack(p, r) && p.y <= p.x && r <= 23168
    ensures p.t + p.y + 1 < 0x8000
  {
    WithinOnePixel(p, r);
    SumBound(p.x, p.y, r + 1);
  }

  lemma SumBound(x: nat, y: nat, c: nat)
    requires x * x + y * y < c * c && c <= 23169
    ensures x + y < 32767
  {
    SquareBound(c, 23169);
    SumOfSquares(x, y);
    if x + y >= 32767 {
      SquareBound(32767, x + y);
    }
  }

  /** A pen that is down is far from the end of the 16-bit range. */
  lemma PenFits(p: Pen, r: int)
    requires OnTrack(p, r) && p.y <= p.x && r < 0x8000
    ensures p.y < 0x7FFF
  {
    if p.y >= 0x7FFF {
      WithinOnePixel(p, r);
      SquareBound(0x7FFF, p.x);
      SquareBound(0x7FFF, p.y);
      SquareBound(r + 1, 0x8000);
    }
  }

  lemma SquareBound(a: nat, b: nat)
    requires a <= b
    ensures a * a <= b * b
  {
    ProductBound(a, b, a);
    ProductBound(a, b, b);
  }

  lemma SumOfSquares(x: int, y: int)
    ensures (x + y) * (x + y) <= 2 * (x * x + y * y)
  {
    assert 2 * (x * x + y * y) == (x + y) * (x + y) + (x - y) * (x - y);
    assert (x - y) * (x - y) >= 0;
  }

  /** The arc of a circle: it rises one pixel a step and moves in by at most one, so it is unbroken; it
      ends within a pixel of the diagonal, so it joins its mirror image; and all of it is on track. */
  ghost predicate IsArc(arc: seq<Pen>, start: Pen, r: int) {
    && arc != [] && arc[0] == start
    && (forall k :: 0 <= k < |arc| ==> arc[k].y == start.y + k && arc[k].y <= arc[k].x && OnTrack(arc[k], r))
    && (forall k :: 0 < k < |arc| ==> arc[k].x <= arc[k - 1].x <= arc[k].x + 1)
    && arc[|arc| - 1].x <= arc[|arc| - 1].y + 1
  }

  lemma {:induction false} ArcIsCircle(p: Pen, r: int)
    requires OnTrack(p, r) && p.y <= p.x
    ensures IsArc(Arc(p), p, r)
    decreases p.x - p.y
  {
    var q := Advance(p);
    AdvanceKeepsTrack(p, r);
    if q.y <= q.x {
      ArcIsCircle(q, r);
      ArcBefore(Arc(q), p, q, r);
    }
  }

  lemma ArcBefore(arc: seq<Pen>, p: Pen, q: Pen, r: int)
    requires IsArc(arc, q, r) && OnTrack(p, r) && p.y <= p.x && q.y == p.y + 1 && q.x <= p.x <= q.x + 1
    ensures IsArc([p] + arc, p, r)
  {
    var longer := [p] + arc;
    forall k | 0 < k < |longer| ensures longer[k] == arc[k - 1] {
    }
  }

  /** The eight reflections of a pen position around a centre. */
  function Octants(x: u16, y: u16, p: Pen): seq<Point> {
    [
      Point(x + p.x, y + p.y), Point(x - p.x, y + p.y), Point(x + p.x, y - p.y), Point(x - p.x, y - p.y),
      Point(x + p.y, y + p.x), Point(x - p.y, y + p.x), Point(x + p.y, y - p.x), Point(x - p.y, y - p.x)
    ]
  }

  ghost function Reflected(x: u16, y: u16, arc: seq<Pen>): (points: seq<Point>)
    ensures |points| == 8 * |arc|
  {
    if arc == [] then [] else Reflected(x, y, arc[..|arc| - 1]) + Octants(x, y, arc[|arc| - 1])
  }

  /** What the loop keeps: the pen positions drawn so far and those still to come make up the arc. */
  ghost predicate Drawing(x: u16, y: u16, r: int, drawn: seq<Pen>, p: Pen, points: seq<Point>) {
    OnTrack(p, r) && drawn + Arc(p) == Arc(PenDown(r)) && points == Reflected(x, y, drawn)
  }

  lemma DrawingAdvances(x: u16, y: u16, r: int, drawn: seq<Pen>, p: Pen, points: seq<Point>)
    requires Drawing(x, y, r, drawn, p, points) && p.y <= p.x
    ensures Drawing(x, y, r, drawn + [p], Advance(p), points + Octants(x, y, p))
  {
    AdvanceKeepsTrack(p, r);
    assert (drawn + [p])[..|drawn|] == drawn;
    assert drawn + [p] + Arc(Advance(p)) == drawn + ([p] + Arc(Advance(p)));
  }

  lemma DrawingEnds(x: u16, y: u16, r: int, drawn: seq<Pen>, p: Pen, points: seq<Point>)
    requires Drawing(x, y, r, drawn, p, points) && p.y > p.x
    ensures points == Reflected(x, y, Arc(PenDown(r)))
  {
    assert drawn + [] == drawn;
  }

  /** What a circle plots. A radius above 32767 is negative as a 16-bit coordinate: nothing is plotted. */
  ghost function CirclePoints(x: u16, y: u16, radius: u16): seq<Point> {
    if radius < 0x8000 then Reflected(x, y, Arc(PenDown(radius))) else []
  }

  method Circle(x: u16, y: u16, radius: u16) returns (points: seq<Point>)
    ensures points == CirclePoints(x, y, radius)
  {
    points := [];
    var ypos: i16 := 0;
    var t1: i16 := radius / 16;
    var xpos: i16 := Narrow(radius);
    ghost var drawn: seq<Pen> := [];
    ghost var pen := PenDown(radius);
    while xpos >= ypos
      invariant if radius >= 0x8000 then xpos < ypos && points == []
                else Drawing(x, y, radius, drawn, pen, points) && pen == Pen(xpos, ypos, t1)
      decreases xpos - ypos
    {
      DrawingAdvances(x, y, radius, drawn, pen, points);
      drawn := drawn + [pen];
      points := points + Octants(x, y, Pen(xpos, ypos, t1));
      xpos, ypos, t1 := MovePen(xpos, ypos, t1, radius);
      pen := Advance(pen);
    }
    if radius < 0x8000 {
      DrawingEnds(x, y, radius, drawn, pen, points);
    }
  }

  /** The rest of the loop's body: the next pen position. The sum may leave 16 bits for large radii; then
      the difference comes back into them and is taken instead. */
  method MovePen(xpos: i16, ypos: i16, t1: i16, ghost r: u16) returns (xpos': i16, ypos': i16, t1': i16)
    requires OnTrack(Pen(xpos, ypos, t1), r) && ypos <= xpos && r < 0x8000
    ensures Pen(xpos', ypos', t1') == Advance(Pen(xpos, ypos, t1))
  {
    PenFits(Pen(xpos, ypos, t1), r);
    xpos', ypos' := xpos, ypos + 1;
    WrapIsHarmless(t1 + ypos', xpos);
    t1' := Narrow(t1 + ypos');
    var t2: i16 := Narrow(t1' - xpos);
    if t2 >= 0 {
      t1' := t2;
      xpos' := xpos - 1;
    }
  }

  lemma WrapIsHarmless(sum: int, x: int)
    requires 0 <= x < 0x8000 && 0 <= sum < x + 0x8000
    ensures Narrow(Narrow(sum) - x) == sum - x
    ensures sum < x ==> Narrow(sum) == sum
  {
  }

  lemma {:induction false} ReflectedAt(x: u16, y: u16, arc: seq<Pen>, k: nat, i: nat)
    requires k < |arc| && i < 8
    ensures Reflected(x, y, arc)[8 * k + i] == Octants(x, y, arc[k])[i]
    decreases |arc|
  {
    if k < |arc| - 1 {
      ReflectedAt(x, y, arc[..|arc| - 1], k, i);
    }
  }

  /** The eight points are all the points as far from the centre across and down as the pen, or down
      and across, and no others. */
  lemma OctantsReflect(x: u16, y: u16, p: Pen, q: Point)
    requires 0 <= p.x && 0 <= p.y
    ensures q in Octants(x, y, p)
       <==> (Abs(q.x - x) == p.x && Abs(q.y - y) == p.y) || (Abs(q.x - x) == p.y && Abs(q.y - y) == p.x)
  {
    var os := Octants(x, y, p);
    assert os[0] == Point(x + p.x, y + p.y) && os[1] == Point(x - p.x, y + p.y);
    assert os[2] == Point(x + p.x, y - p.y) && os[3] == Point(x - p.x, y - p.y);
    assert os[4] == Point(x + p.y, y + p.x) && os[5] == Point(x - p.y, y + p.x);
    assert os[6] == Point(x + p.y, y - p.x) && os[7] == Point(x - p.y, y - p.x);
  }

  lemma ReflectionKeepsNear(a: int, b: int, x: int, y: int, r: int)
    requires NearCircle(x, y, r) && x >= 0 && y >= 0
    requires (Abs(a) == x && Abs(b) == y) || (Abs(a) == y && Abs(b) == x)
    ensures NearCircle(a, b, r)
  {
    assert -a * -a == a * a && -b * -b == b * b;
  }

  /** Every pixel of a circle is less than one pixel from the true circle. */
  lemma CirclePixels(x: u16, y: u16, radius: u16, k: nat, i: nat, q: Point)
    requires 8 * k + i < |CirclePoints(x, y, radius)| && i < 8 && q == CirclePoints(x, y, radius)[8 * k + i]
    ensures NearCircle(q.x - x, q.y - y, radius)
  {
    var arc := Arc(PenDown(radius));
    ArcIsCircle(PenDown(radius), radius);
    ReflectedAt(x, y, arc, k, i);
    OctantsNear(x, y, arc[k], radius, i, q);
  }

  lemma OctantsNear(x: u16, y: u16, p: Pen, r: int, i: nat, q: Point)
    requires OnTrack(p, r) && p.y <= p.x && i < 8 && q == Octants(x, y, p)[i]
    ensures NearCircle(q.x - x, q.y - y, r)
  {
    WithinOnePixel(p, r);
    OctantsReflect(x, y, p, q);
    ReflectionKeepsNear(q.x - x, q.y - y, p.x, p.y, r);
  }

  // ----- lines

  /** Division as C does it, towards zero. */
  function Truncate(a: int, b: int): int
    requires b > 0
  {
    if a >= 0 then a / b else -(-a / b)
  }

  /** What one step along the long axis moves along the short one, in 65536ths of a pixel. */
  function Slope(short: int, long: nat): int {
    if long == 0 then 0 else Truncate(short * 65536, long)
  }

  /** k steps of the same size. */
  function Moved(step: int, k: nat): int {
    if k == 0 then 0 else Moved(step, k - 1) + step
  }

  lemma {:induction false} MovedIsProduct(step: int, k: nat)
    ensures Moved(step, k) == k * step
  {
    if k > 0 {
      MovedIsProduct(step, k - 1);
      assert k * step == (k - 1) * step + step;
    }
  }

  /** How far k steps have moved along the short axis, in whole pixels, rounded down. */
  function Drift(short: int, long: nat, k: nat): int {
    Moved(Slope(short, long), k) / 65536
  }

  function Length(start: Point, end: Point): nat {
    var dx, dy := Abs(end.x - start.x), Abs(end.y - start.y);
    if dy > dx then dy else dx
  }

  function Along(start: int, d: int, k: nat): int {
    if d < 0 then start - k else start + k
  }

  function LinePoint(start: Point, end: Point, k: nat): Point {
    var dx, dy := end.x - start.x, end.y - start.y;
    if Abs(dy) > Abs(dx) then Point(start.x + Drift(dx, Abs(dy), k), Along(start.y, dy, k))
    else Point(Along(start.x, dx, k), start.y + Drift(dy, Abs(dx), k))
  }

  /** One step short of the exact slope by less than 1 in 65536 * long. */
  lemma SlopeError(short: int, long: nat, d: int)
    requires long > 0 && d == Slope(short, long)
    ensures short >= 0 ==> 0 <= long * d <= short * 65536 <= long * d + (long - 1)
    ensures short < 0 ==> long * d - (long - 1) <= short * 65536 <= long * d <= 0
  {
    var s := Abs(short) * 65536;
    assert s == long * (s / long) + s % long;
    assert long * -(s / long) == -(long * (s / long));
  }

  lemma ProductOrder(a: int, b: int, k: nat)
    requires a <= b
    ensures k * a <= k * b
  {
  }

  /** The error after k steps: k times that of one step. */
  lemma ErrorAfter(short: int, long: nat, d: int, k: nat)
    requires long > 0 && d == Slope(short, long)
    ensures short >= 0 ==> 0 <= long * (k * d) <= 65536 * (k * short) <= long * (k * d) + k * (long - 1)
    ensures short < 0 ==> long * (k * d) - k * (long - 1) <= 65536 * (k * short) <= long * (k * d) <= 0
  {
    SlopeError(short, long, d);
    if short >= 0 {
      ErrorTimes(long * d, short * 65536, long - 1, k);
    } else {
      ErrorTimes(-(long * d), -short * 65536, long - 1, k);
    }
    Regroup(long, short, d, k);
  }

  lemma Regroup(long: nat, short: int, d: int, k: nat)
    ensures k * (long * d) == long * (k * d) && k * -(long * d) == -(long * (k * d))
    ensures k * (short * 65536) == 65536 * (k * short) && k * (-short * 65536) == -(65536 * (k * short))
  {
  }

  lemma ErrorTimes(a: int, s: int, e: nat, k: nat)
    requires 0 <= a <= s <= a + e
    ensures 0 <= k * a <= k * s <= k * a + k * e
  {
    ProductOrder(0, a, k);
    ProductOrder(a, s, k);
    ProductOrder(s, a + e, k);
    assert k * (a + e) == k * a + k * e;
  }

  lemma Cancel(long: nat, a: int, b: int)
    requires long > 0 && long * a <= long * b
    ensures a <= b
  {
    if a > b {
      assert long * (b + 1) == long * b + long;
      ProductOrder(b + 1, a, long);
    }
  }

  lemma FloorScaled(long: nat, j: int, off: int)
    requires long > 0 && off == j / 65536
    ensures 65536 * (long * off) <= long * j <= 65536 * (long * off) + 65535 * long
  {
    ProductOrder(65536 * off, j, long);
    ProductOrder(j, 65536 * off + 65535, long);
    assert long * (65536 * off) == 65536 * (long * off);
    assert long * (65536 * off + 65535) == 65536 * (long * off) + 65535 * long;
  }

  /** After k steps the drift is less than 1 + k/65536 pixels from k * short / long. */
  lemma DriftClose(short: int, long: nat, k: nat, off: int)
    requires 0 <= k < long && off == Drift(short, long, k)
    ensures 65536 * Abs(long * off - k * short) < 65536 * long + k * long
  {
    var d := Slope(short, long);
    ErrorAfter(short, long, d, k);
    MovedIsProduct(d, k);
    FloorScaled(long, k * d, off);
    assert k * long == k * (long - 1) + k;
    CloseEnough(short < 0, long, long * (k * d), long * off, k * short, k * (long - 1));
  }

  lemma CloseEnough(down: bool, long: nat, a: int, l: int, p: int, e: int)
    requires 0 < long && 65536 * l <= a <= 65536 * l + 65535 * long && 0 <= e
    requires if down then a - e <= 65536 * p <= a else a <= 65536 * p <= a + e
    ensures 65536 * Abs(l - p) < 65536 * long + e
  {
  }

  /** The drift never leaves the range between the two ends. */
  lemma DriftBetween(short: int, long: nat, k: nat)
    requires k <= long && 0 < long
    ensures Between(0, Moved(Slope(short, long), k), short * 65536)
    ensures Between(0, Drift(short, long, k), short)
  {
    var d := Slope(short, long);
    ErrorAfter(short, long, d, k);
    MovedIsProduct(d, k);
    assert long * 0 == 0;
    assert long * (short * 65536) == 65536 * (long * short);
    if short >= 0 {
      ProductOrder(k, long, short);
      Cancel(long, 0, k * d);
      Cancel(long, k * d, short * 65536);
    } else {
      ProductOrder(k, long, -short);
      assert -short * k == -(k * short) && -short * long == -(long * short);
      Cancel(long, k * d, 0);
      Cancel(long, short * 65536, k * d);
    }
  }

  lemma SlopeFits(short: int, long: nat)
    requires Abs(short) <= long && long > 0
    ensures -65536 <= Slope(short, long) <= 65536
  {
    SlopeError(short, long, Slope(short, long));
    assert long * 65536 == 65536 * long && long * -65536 == -65536 * long;
    if short >= 0 {
      Cancel(long, Slope(short, long), 65536);
    } else {
      Cancel(long, -65536, Slope(short, long));
    }
  }

  lemma DriftStep(short: int, long: nat, k: nat)
    requires Abs(short) <= long && long > 0
    ensures Abs(Drift(short, long, k + 1) - Drift(short, long, k)) <= 1
  {
    var d := Slope(short, long);
    SlopeFits(short, long);
    FloorStep(Moved(d, k), d, Moved(d, k + 1));
  }

  lemma FloorStep(j: int, d: int, j': int)
    requires -65536 <= d <= 65536 && j' == j + d
    ensures Abs(j' / 65536 - j / 65536) <= 1
  {
  }

  predicate OnGrid(p: Point) {
    0 <= p.x < 0x1_0000 && 0 <= p.y < 0x1_0000
  }

  /** How far a line goes along its short axis. */
  function Rise(start: Point, end: Point): int {
    var dx, dy := end.x - start.x, end.y - start.y;
    if Abs(dy) > Abs(dx) then dx else dy
  }

  /** Lines whose rise can be shifted by 16 bits. */
  predicate Drawable(start: Point, end: Point) {
    OnGrid(start) && OnGrid(end) && -0x8000 <= Rise(start, end) < 0x8000
  }

  /** The shift stays in 32 bits for exactly these lines. */
  lemma ShiftFits(start: Point, end: Point)
    requires OnGrid(start) && OnGrid(end)
    ensures -0x8000_0000 <= Rise(start, end) * 65536 < 0x8000_0000 <==> Drawable(start, end)
  {
  }

  /** A line's points lie in the box of its ends, the first at the start. */
  lemma LineInBox(start: Point, end: Point, k: nat)
    requires Drawable(start, end) && k < Length(start, end)
    ensures var p := LinePoint(start, end, k);
      Between(start.x, p.x, end.x) && Between(start.y, p.y, end.y) && (k == 0 ==> p == start)
  {
    var dx, dy := end.x - start.x, end.y - start.y;
    if Abs(dy) > Abs(dx) {
      DriftBetween(dx, Abs(dy), k);
    } else {
      DriftBetween(dy, Abs(dx), k);
    }
  }

  /** Each point of a line is next to the one before it. */
  lemma LineIsUnbroken(start: Point, end: Point, k: nat)
    requires Drawable(start, end) && k + 1 < Length(start, end)
    ensures Adjacent(LinePoint(start, end, k + 1), LinePoint(start, end, k))
  {
    var dx, dy := end.x - start.x, end.y - start.y;
    if Abs(dy) > Abs(dx) {
      DriftStep(dx, Abs(dy), k);
    } else {
      DriftStep(dy, Abs(dx), k);
    }
  }

  /** How far a point is from the ideal line along the short axis, times the line's length. */
  function Off(start: Point, end: Point, p: Point): nat {
    Abs((end.x - start.x) * (p.y - start.y) - (end.y - start.y) * (p.x - start.x))
  }

  /** Point number k of a line is less than 1 + k/65536 pixels from the ideal line. */
  lemma LineIsStraight(start: Point, end: Point, k: nat, p: Point)
    requires Drawable(start, end) && k < Length(start, end) && p == LinePoint(start, end, k)
    ensures 65536 * Off(start, end, p) < 65536 * Length(start, end) + k * Length(start, end)
  {
    var dx: int, dy: int := end.x - start.x, end.y - start.y;
    if Abs(dy) > Abs(dx) {
      var off := p.x - start.x;
      DriftClose(dx, Abs(dy), k, off);
      Across(dy, dx, k, off, p.y - start.y);
    } else {
      var off := p.y - start.y;
      DriftClose(dy, Abs(dx), k, off);
      Across(dx, dy, k, off, p.x - start.x);
    }
  }

  /** So the first 32769 points, and all points of a line between coordinates up to 32767, are less
      than 1.5 pixels from it, and all points of any line less than 2. */
  lemma LineIsClose(start: Point, end: Point, k: nat, p: Point)
    requires Drawable(start, end) && k < Length(start, end) && p == LinePoint(start, end, k)
    ensures Off(start, end, p) < 2 * Length(start, end)
    ensures k <= 32768 ==> 2 * Off(start, end, p) < 3 * Length(start, end)
  {
    LineIsStraight(start, end, k, p);
    ProductBound(k, 65535, Length(start, end));
    if k <= 32768 {
      ProductBound(k, 32768, Length(start, end));
    }
  }

  /** The distance from the ideal line, whichever way the long axis runs. */
  lemma Across(d: int, short: int, k: nat, off: int, along: int)
    requires along == Along(0, d, k)
    ensures Abs(d * off - short * along) == Abs(Abs(d) * off - k * short)
  {
    assert -d * off == -(d * off);
    assert short * -(k as int) == -(k * short);
  }

  /** Draw from `start` up to but not including `end`. */
  method Line(start: Point, end: Point) returns (points: seq<Point>)
    requires Drawable(start, end)
    ensures |points| == Length(start, end)
    ensures forall k :: 0 <= k < |points| ==> points[k] == LinePoint(start, end, k)
  {
    points := [];
    var shortLen: i32 := end.y - start.y;
    var longLen: i32 := end.x - start.x;
    var yLonger := Abs(shortLen) > Abs(longLen);
    if yLonger {
      shortLen, longLen := longLen, shortLen;
    }
    var endVal: i32 := longLen;
    var incrementVal: i32 := 1;
    if longLen < 0 {
      incrementVal := -1;
      longLen := -longLen;
    }
    var decInc: i32 := 0;
    if longLen != 0 {
      var scaled: i32 := shortLen * 65536;
      SlopeFits(shortLen, longLen);
      decInc := Truncate(scaled, longLen);
    }
    if yLonger {
      points := AlongY(start, end, endVal, incrementVal, decInc);
    } else {
      points := AlongX(start, end, endVal, incrementVal, decInc);
    }
  }

  /** The loop of a line that is longer down than across. */
  method AlongY(start: Point, end: Point, endVal: i32, incrementVal: i32, decInc: i32) returns (points: seq<Point>)
    requires Drawable(start, end) && endVal == end.y - start.y && Abs(endVal) > Abs(end.x - start.x)
    requires incrementVal == (if endVal < 0 then -1 else 1) && decInc == Slope(end.x - start.x, Abs(endVal))
    ensures |points| == Abs(endVal)
    ensures forall k :: 0 <= k < |points| ==> points[k] == LinePoint(start, end, k)
  {
    points := [];
    var i: i32, j: i32 := 0, 0;
    while i != endVal
      invariant |points| <= Abs(endVal) && i == Along(0, endVal, |points|) && j == Moved(decInc, |points|)
      invariant forall k :: 0 <= k < |points| ==> points[k] == LinePoint(start, end, k)
      decreases Abs(endVal) - |points|
    {
      DriftBetween(end.x - start.x, Abs(endVal), |points| + 1);
      points := points + [Point(start.x + j / 65536, start.y + i)];
      i := i + incrementVal;
      j := j + decInc;
    }
  }

  /** The loop of the other lines. */
  method AlongX(start: Point, end: Point, endVal: i32, incrementVal: i32, decInc: i32) returns (points: seq<Point>)
    requires Drawable(start, end) && endVal == end.x - start.x && Abs(endVal) >= Abs(end.y - start.y)
    requires incrementVal == (if endVal < 0 then -1 else 1) && decInc == Slope(end.y - start.y, Abs(endVal))
    ensures |points| == Abs(endVal)
    ensures forall k :: 0 <= k < |points| ==> points[k] == LinePoint(start, end, k)
  {
    points := [];
    var i: i32, j: i32 := 0, 0;
    while i != endVal
      invariant |points| <= Abs(endVal) && i == Along(0, endVal, |points|) && j == Moved(decInc, |points|)
      invariant forall k :: 0 <= k < |points| ==> points[k] == LinePoint(start, end, k)
      decreases Abs(endVal) - |points|
    {
      DriftBetween(end.y - start.y, Abs(endVal), |points| + 1);
      points := points + [Point(start.x + i, start.y + j / 65536)];
      i := i + incrementVal;
      j := j + decInc;
    }
  }
}
