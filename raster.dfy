/** The 2D primitives of the rasterizer: pixel, clear, line, filled triangle and
    axis-aligned rectangles, each drawing into the frame in place. */
module Raster {
  import opened Frame
  import opened Lines

  /** `draw_pixel`: bounds check, then the four bytes of the y-flipped pixel. */
  method DrawPixel(frame: array<byte>, x: int, y: int, color: u32)
    requires frame.Length == FRAME_LEN
    modifies frame
    ensures frame[..] == Plot(old(frame[..]), x, y, color)
  {
    if x < 0 || x >= WIDTH || y < 0 || y >= HEIGHT {
      return;
    }
    var i := ((HEIGHT - 1 - y) * WIDTH + x) * 4;
    PixelAtIndex(x, y, 0);
    frame[i] := (color / 0x100_0000) % 256;
    frame[i + 1] := (color / 0x1_0000) % 256;
    frame[i + 2] := (color / 0x100) % 256;
    frame[i + 3] := color % 256;
  }

  /** All pixels of the screen. */
  ghost function Screen(): iset<Point> {
    iset p: Point | OnScreen(p.0, p.1)
  }

  /** The part of region s in the columns left of x. */
  ghost function Columns(s: iset<Point>, x: int): iset<Point> {
    iset p: Point | p in s && p.0 < x
  }

  /** The part of region s visited before (x, y) by a column-by-column scan. */
  ghost function Before(s: iset<Point>, x: int, y: int): iset<Point> {
    iset p: Point | p in s && (p.0 < x || (p.0 == x && p.1 < y))
  }

  /** Row y from lo up to, not including, x. */
  ghost function RowPart(y: int, lo: int, x: int): iset<Point> {
    iset p: Point | p.1 == y && lo <= p.0 < x
  }

  /** A column-by-column scan that has painted the part of s before (x, y) and
      now plots (x, y) when it lies in s has painted the part before (x, y + 1). */
  lemma ScanStep(f0: seq<byte>, s: iset<Point>, x: int, y: int, c: u32)
    requires |f0| == FRAME_LEN
    ensures (x, y) in s ==>
      Plot(Paint(f0, Before(s, x, y), c), x, y, c) == Paint(f0, Before(s, x, y + 1), c)
    ensures (x, y) !in s ==> Before(s, x, y) == Before(s, x, y + 1)
  {
    PlotOnPaint(f0, Before(s, x, y), x, y, c);
    if (x, y) in s {
      PaintOnScreenPart(f0, Before(s, x, y) + iset{(x, y)}, Before(s, x, y + 1), c);
    }
  }

  /** The scan of column x starts at row lo and ends after row hi. */
  lemma ScanColumn(s: iset<Point>, x: int, lo: int, hi: int)
    requires forall p: Point :: p in s && p.0 == x ==> lo <= p.1 <= hi
    ensures Before(s, x, lo) == Columns(s, x)
    ensures Before(s, x, hi + 1) == Columns(s, x + 1)
  {
  }

  /** `clear`: every pixel of the frame gets the colour. */
  method Clear(frame: array<byte>, color: u32)
    requires frame.Length == FRAME_LEN
    modifies frame
    ensures frame[..] == Paint(old(frame[..]), Screen(), color)
    ensures forall k :: 0 <= k < FRAME_LEN ==> frame[k] == Channel(color, k % 4)
  {
    ghost var f0 := frame[..];
    for x := 0 to WIDTH
      invariant frame[..] == Paint(f0, Columns(Screen(), x), color)
    {
      ScanColumn(Screen(), x, 0, HEIGHT - 1);
      for y := 0 to HEIGHT
        invariant frame[..] == Paint(f0, Before(Screen(), x, y), color)
      {
        ScanStep(f0, Screen(), x, y, color);
        DrawPixel(frame, x, y, color);
      }
    }
    assert Columns(Screen(), WIDTH) == Screen();
    forall k | 0 <= k < FRAME_LEN ensures frame[k] == Channel(color, k % 4) {
      PixelAtOnScreen(k);
      assert frame[k] == frame[..][k];
    }
  }

  /** The pixels of a seq of points. */
  ghost function PointsOf(pts: seq<Point>): iset<Point> {
    iset p | p in pts
  }

  /** What `draw_line` does to a frame: nothing unless both endpoints are on
      screen, else the Bresenham points in the colour. */
  ghost function LineEffect(f: seq<byte>, x0: int, y0: int, x1: int, y1: int, color: u32): seq<byte>
    requires |f| == FRAME_LEN
  {
    if !(OnScreen(x0, y0) && OnScreen(x1, y1)) then f
    else Paint(f, PointsOf(Line(x0, y0, x1, y1)), color)
  }

  /** Painting points one after the other paints the points seen so far. */
  lemma PlotNext(f0: seq<byte>, f: seq<byte>, pts: seq<Point>, n: int, color: u32)
    requires |f0| == FRAME_LEN && 0 <= n < |pts|
    requires f == Paint(f0, PointsOf(pts[..n]), color)
    ensures Plot(f, pts[n].0, pts[n].1, color) == Paint(f0, PointsOf(pts[..n + 1]), color)
  {
    PlotOnPaint(f0, PointsOf(pts[..n]), pts[n].0, pts[n].1, color);
    assert pts[..n + 1] == pts[..n] + [pts[n]];
    PaintOnScreenPart(f0, PointsOf(pts[..n]) + iset{(pts[n].0, pts[n].1)}, PointsOf(pts[..n + 1]), color);
  }

  /** `draw_line`: all-or-nothing on-screen reject, then plot every Bresenham point. */
  method DrawLine(frame: array<byte>, x0: int, y0: int, x1: int, y1: int, color: u32)
    requires frame.Length == FRAME_LEN
    modifies frame
    ensures frame[..] == LineEffect(old(frame[..]), x0, y0, x1, y1, color)
  {
    if x0 < 0 || x0 >= WIDTH || x1 < 0 || x1 >= WIDTH || y0 < 0 || y0 >= HEIGHT || y1 < 0 || y1 >= HEIGHT {
      return;
    }
    ghost var f0 := frame[..];
    var line := Bresenham(x0, y0, x1, y1);
    for n := 0 to |line|
      invariant frame[..] == Paint(f0, PointsOf(line[..n]), color)
    {
      PlotNext(f0, frame[..], line, n, color);
      DrawPixel(frame, line[n].0, line[n].1, color);
    }
    assert line[..|line|] == line;
  }

  /** A line between on-screen endpoints writes only on-screen pixels. */
  lemma LineOnScreen(x0: int, y0: int, x1: int, y1: int)
    requires OnScreen(x0, y0) && OnScreen(x1, y1)
    ensures forall p :: p in Line(x0, y0, x1, y1) ==> OnScreen(p.0, p.1)
  {
    LineInBox(x0, y0, x1, y1);
  }

  // ---- draw_triangle_fill ------------------------------------------------

  /** The three Bresenham edges of a triangle, in the order they are collected. */
  function Edges(x0: int, y0: int, x1: int, y1: int, x2: int, y2: int): seq<Point> {
    Line(x0, y0, x1, y1) + Line(x1, y1, x2, y2) + Line(x2, y2, x0, y0)
  }

  /** The x of each point lying in row y, in the order of the points. */
  function RowXs(pts: seq<Point>, y: int): (r: seq<int>)
    ensures forall x :: x in r <==> (x, y) in pts
  {
    if |pts| == 0 then []
    else
      var last := pts[|pts| - 1];
      assert pts == pts[..|pts| - 1] + [last];
      RowXs(pts[..|pts| - 1], y) + (if last.1 == y then [last.0] else [])
  }

  /** The rows any point lies in. */
  function RowsOf(pts: seq<Point>): set<int> {
    set p | p in pts :: p.1
  }

  /** The row map `draw_triangle_fill` builds: every touched row to the x of its
      points, in order. */
  function RowMap(pts: seq<Point>): map<int, seq<int>> {
    map y | y in RowsOf(pts) :: RowXs(pts, y)
  }

  function SeqMin(s: seq<int>): (r: int)
    requires |s| > 0
    ensures r in s && forall x :: x in s ==> r <= x
  {
    if |s| == 1 then s[0]
    else
      assert forall x :: x in s ==> x == s[0] || x in s[1..];
      Min(s[0], SeqMin(s[1..]))
  }

  function SeqMax(s: seq<int>): (r: int)
    requires |s| > 0
    ensures r in s && forall x :: x in s ==> x <= r
  {
    if |s| == 1 then s[0]
    else
      assert forall x :: x in s ==> x == s[0] || x in s[1..];
      Max(s[0], SeqMax(s[1..]))
  }

  /** Every row of the map filled from its smallest to its largest x. */
  ghost function SpanRegion(rows: map<int, seq<int>>): iset<Point> {
    RowsRegion(rows, rows.Keys)
  }

  /** What `draw_triangle_fill` does to a frame. */
  ghost function TriangleEffect(f: seq<byte>, x0: int, y0: int, x1: int, y1: int, x2: int, y2: int, fill: u32): seq<byte>
    requires |f| == FRAME_LEN
  {
    if !(OnScreen(x0, y0) && OnScreen(x1, y1) && OnScreen(x2, y2)) then f
    else Paint(f, SpanRegion(RowMap(Edges(x0, y0, x1, y1, x2, y2))), fill)
  }

  /** Adding one point to the row map appends its x to its row. */
  lemma RowMapNext(pts: seq<Point>, p: Point)
    ensures RowMap(pts + [p]) ==
      if p.1 in RowMap(pts) then RowMap(pts)[p.1 := RowMap(pts)[p.1] + [p.0]]
      else RowMap(pts)[p.1 := [p.0]]
  {
    var m, n := RowMap(pts), RowMap(pts + [p]);
    var e := if p.1 in m then m[p.1 := m[p.1] + [p.0]] else m[p.1 := [p.0]];
    RowsNext(pts, p);
    forall y | y in n.Keys ensures n[y] == e[y] {
      RowXsNext(pts, p, y);
      if y == p.1 && p.1 !in m {
        RowXsAbsent(pts, y);
      }
    }
  }

  lemma RowsNext(pts: seq<Point>, p: Point)
    ensures RowsOf(pts + [p]) == RowsOf(pts) + {p.1}
  {
    assert forall q :: q in pts + [p] <==> q in pts || q == p;
  }

  /** A point appended to the points appends its x to its row. */
  lemma RowXsNext(pts: seq<Point>, p: Point, y: int)
    ensures RowXs(pts + [p], y) == RowXs(pts, y) + (if p.1 == y then [p.0] else [])
  {
    var q := pts + [p];
    assert q[..|q| - 1] == pts;
  }

  /** A row no point lies in has no x. */
  lemma {:induction false} RowXsAbsent(pts: seq<Point>, y: int)
    requires y !in RowsOf(pts)
    ensures RowXs(pts, y) == []
  {
    if |pts| > 0 {
      var prefix := pts[..|pts| - 1];
      assert forall q :: q in prefix ==> q in pts;
      RowXsAbsent(prefix, y);
    }
  }

  /** `draw_triangle_fill`: collect the edges, group their x by row, fill each row. */
  method DrawTriangleFill(frame: array<byte>, x0: int, y0: int, x1: int, y1: int, x2: int, y2: int, fill: u32)
    requires frame.Length == FRAME_LEN
    modifies frame
    ensures frame[..] == TriangleEffect(old(frame[..]), x0, y0, x1, y1, x2, y2, fill)
  {
    if x0 < 0 || x0 >= WIDTH || x1 < 0 || x1 >= WIDTH || x2 < 0 || x2 >= WIDTH
      || y0 < 0 || y0 >= HEIGHT || y1 < 0 || y1 >= HEIGHT || y2 < 0 || y2 >= HEIGHT {
      return;
    }
    var lines := CollectEdges(x0, y0, x1, y1, x2, y2);
    var mapY, rows := GroupRows(lines);
    FillRows(frame, mapY, rows, fill);
  }

  /** The three `bresenham` runs appended one after the other. */
  method CollectEdges(x0: int, y0: int, x1: int, y1: int, x2: int, y2: int) returns (lines: seq<Point>)
    ensures lines == Edges(x0, y0, x1, y1, x2, y2)
  {
    lines := [];
    var edge := Bresenham(x0, y0, x1, y1);
    assert [] + edge == edge;
    lines := lines + edge;
    edge := Bresenham(x1, y1, x2, y2);
    lines := lines + edge;
    edge := Bresenham(x2, y2, x0, y0);
    lines := lines + edge;
  }

  /** The row-grouping loop of `draw_triangle_fill`; rows also lists the rows in
      the order they were first met. */
  method GroupRows(lines: seq<Point>) returns (mapY: map<int, seq<int>>, rows: seq<int>)
    ensures mapY == RowMap(lines)
    ensures forall y :: y in mapY <==> y in rows
    ensures forall y :: y in mapY ==> |mapY[y]| > 0
  {
    mapY := map[];
    rows := [];
    for n := 0 to |lines|
      invariant mapY == RowMap(lines[..n])
      invariant forall y :: y in mapY <==> y in rows
      invariant forall y :: y in mapY ==> |mapY[y]| > 0
    {
      var p := lines[n];
      RowMapNext(lines[..n], p);
      TakeNext(lines, n);
      if p.1 in mapY {
        mapY := mapY[p.1 := mapY[p.1] + [p.0]];
      } else {
        mapY := mapY[p.1 := [p.0]];
        rows := rows + [p.1];
      }
    }
    TakeAll(lines);
  }

  /** The row-filling loop of `draw_triangle_fill`. A hash map is iterated in an
      unspecified order: the fill is proved for every order that visits each
      row of the map. */
  method FillRows(frame: array<byte>, mapY: map<int, seq<int>>, order: seq<int>, fill: u32)
    requires frame.Length == FRAME_LEN
    requires forall y :: y in mapY ==> |mapY[y]| > 0
    requires forall y :: y in mapY <==> y in order
    modifies frame
    ensures frame[..] == Paint(old(frame[..]), SpanRegion(mapY), fill)
  {
    ghost var f0 := frame[..];
    for n := 0 to |order|
      invariant frame[..] == Paint(f0, RowsRegion(mapY, Elems(order[..n])), fill)
    {
      var y := order[n];
      var v := mapY[y];
      FillRowStep(f0, mapY, Elems(order[..n]), y, fill);
      assert Elems(order[..n + 1]) == Elems(order[..n]) + {y} by {
        assert order[..n + 1] == order[..n] + [y];
      }
      FillSpan(frame, y, SeqMin(v), SeqMax(v), fill);
    }
    assert order[..|order|] == order;
    assert Elems(order) == mapY.Keys by {
      forall y ensures y in Elems(order) <==> y in mapY.Keys {
      }
    }
  }

  ghost function Elems(s: seq<int>): set<int> {
    set y | y in s
  }

  /** The rows ys of the map, each filled from its smallest to its largest x. */
  ghost function RowsRegion(rows: map<int, seq<int>>, ys: set<int>): iset<Point> {
    iset p: Point | p.1 in ys && p.1 in rows && |rows[p.1]| > 0 && SeqMin(rows[p.1]) <= p.0 <= SeqMax(rows[p.1])
  }

  /** Filling one more row of the map adds that row to the filled region. */
  lemma FillRowStep(f0: seq<byte>, m: map<int, seq<int>>, ys: set<int>, y: int, c: u32)
    requires |f0| == FRAME_LEN && y in m && |m[y]| > 0
    ensures Paint(Paint(f0, RowsRegion(m, ys), c), RowPart(y, SeqMin(m[y]), SeqMax(m[y]) + 1), c)
      == Paint(f0, RowsRegion(m, ys + {y}), c)
  {
    PaintTwice(f0, RowsRegion(m, ys), RowPart(y, SeqMin(m[y]), SeqMax(m[y]) + 1), c);
    PaintOnScreenPart(f0, RowsRegion(m, ys) + RowPart(y, SeqMin(m[y]), SeqMax(m[y]) + 1), RowsRegion(m, ys + {y}), c);
  }

  /** One row of the fill, from lo to hi inclusive. */
  method FillSpan(frame: array<byte>, y: int, lo: int, hi: int, fill: u32)
    requires frame.Length == FRAME_LEN && lo <= hi
    modifies frame
    ensures frame[..] == Paint(old(frame[..]), RowPart(y, lo, hi + 1), fill)
  {
    ghost var f0 := frame[..];
    for x := lo to hi + 1
      invariant frame[..] == Paint(f0, RowPart(y, lo, x), fill)
    {
      DrawPixel(frame, x, y, fill);
      PlotOnPaint(f0, RowPart(y, lo, x), x, y, fill);
      PaintOnScreenPart(f0, RowPart(y, lo, x) + iset{(x, y)}, RowPart(y, lo, x + 1), fill);
    }
  }


  /** A pixel is filled exactly when it lies in a row of the edges between two
      edge points of that row: the fill spans each touched row from its least
      to its greatest x, and rows no edge touches are left alone. */
  lemma SpanBetweenEdges(pts: seq<Point>, p: Point)
    ensures p in SpanRegion(RowMap(pts)) <==>
      exists a, b :: a in pts && b in pts && a.1 == p.1 && b.1 == p.1 && a.0 <= p.0 <= b.0
  {
    if p in SpanRegion(RowMap(pts)) {
      SpanHasEdges(pts, p);
    }
    if exists a, b :: a in pts && b in pts && a.1 == p.1 && b.1 == p.1 && a.0 <= p.0 <= b.0 {
      var a, b :| a in pts && b in pts && a.1 == p.1 && b.1 == p.1 && a.0 <= p.0 <= b.0;
      EdgesSpan(pts, a, b, p);
    }
  }

  lemma SpanHasEdges(pts: seq<Point>, p: Point)
    requires p in SpanRegion(RowMap(pts))
    ensures (SeqMin(RowMap(pts)[p.1]), p.1) in pts && (SeqMax(RowMap(pts)[p.1]), p.1) in pts
    ensures SeqMin(RowMap(pts)[p.1]) <= p.0 <= SeqMax(RowMap(pts)[p.1])
  {
    var v := RowMap(pts)[p.1];
    assert v == RowXs(pts, p.1);
  }

  lemma EdgesSpan(pts: seq<Point>, a: Point, b: Point, p: Point)
    requires a in pts && b in pts && a.1 == p.1 && b.1 == p.1 && a.0 <= p.0 <= b.0
    ensures p in SpanRegion(RowMap(pts))
  {
    assert p.1 in RowsOf(pts);
    var v := RowMap(pts)[p.1];
    assert v == RowXs(pts, p.1);
    assert a.0 in v && b.0 in v;
  }

  /** A triangle with on-screen vertices fills only on-screen pixels. */
  lemma TriangleOnScreen(x0: int, y0: int, x1: int, y1: int, x2: int, y2: int, p: Point)
    requires OnScreen(x0, y0) && OnScreen(x1, y1) && OnScreen(x2, y2)
    requires p in SpanRegion(RowMap(Edges(x0, y0, x1, y1, x2, y2)))
    ensures OnScreen(p.0, p.1)
  {
    var pts := Edges(x0, y0, x1, y1, x2, y2);
    SpanHasEdges(pts, p);
    var a, b := (SeqMin(RowMap(pts)[p.1]), p.1), (SeqMax(RowMap(pts)[p.1]), p.1);
    LineOnScreen(x0, y0, x1, y1);
    LineOnScreen(x1, y1, x2, y2);
    LineOnScreen(x2, y2, x0, y0);
    assert a in Line(x0, y0, x1, y1) || a in Line(x1, y1, x2, y2) || a in Line(x2, y2, x0, y0);
    assert b in Line(x0, y0, x1, y1) || b in Line(x1, y1, x2, y2) || b in Line(x2, y2, x0, y0);
  }

  // ---- draw_rectangle / draw_rectangle_fill -------------------------------

  /** The corners after normalising and clamping to [-1, WIDTH] x [-1, HEIGHT]:
      (left, bottom, right, top). */
  function RectBounds(x0: int, y0: int, x1: int, y1: int): (int, int, int, int) {
    (Max(Min(x0, x1), -1), Max(Min(y0, y1), -1), Min(Max(x0, x1), WIDTH), Min(Max(y0, y1), HEIGHT))
  }

  /** The closed box between two corners. */
  ghost function Box(l: int, b: int, r: int, t: int): iset<Point> {
    iset p: Point | l <= p.0 <= r && b <= p.1 <= t
  }

  /** The pixels of a box on its four sides. */
  ghost function Border(l: int, b: int, r: int, t: int): iset<Point> {
    iset p: Point | l <= p.0 <= r && b <= p.1 <= t && (p.0 == l || p.0 == r || p.1 == b || p.1 == t)
  }

  /** What `draw_rectangle_fill` does to a frame. */
  ghost function RectangleFillEffect(f: seq<byte>, x0: int, y0: int, x1: int, y1: int, color: u32): seq<byte>
    requires |f| == FRAME_LEN
  {
    var (l, b, r, t) := RectBounds(x0, y0, x1, y1);
    Paint(f, Box(l, b, r, t), color)
  }

  /** What `draw_rectangle` does to a frame. */
  ghost function RectangleEffect(f: seq<byte>, x0: int, y0: int, x1: int, y1: int, color: u32): seq<byte>
    requires |f| == FRAME_LEN
  {
    var (l, b, r, t) := RectBounds(x0, y0, x1, y1);
    Paint(f, Border(l, b, r, t), color)
  }

  /** The column scan of a box starts at its bottom row and is complete past its top row. */
  lemma BoxColumn(l: int, b: int, r: int, t: int, x: int, y: int)
    ensures Before(Box(l, b, r, t), x, b) == Columns(Box(l, b, r, t), x)
    ensures y > t ==> Before(Box(l, b, r, t), x, y) == Columns(Box(l, b, r, t), x + 1)
  {
  }

  lemma BorderColumn(l: int, b: int, r: int, t: int, x: int, y: int)
    ensures Before(Border(l, b, r, t), x, b) == Columns(Border(l, b, r, t), x)
    ensures y > t ==> Before(Border(l, b, r, t), x, y) == Columns(Border(l, b, r, t), x + 1)
  {
  }

  /** The inner loop of `draw_rectangle`: column x of the box, plotting the
      pixels on its sides. */
  method OutlineColumn(frame: array<byte>, ghost f0: seq<byte>, l: int, b: int, r: int, t: int, x: int, color: u32)
    requires frame.Length == FRAME_LEN && |f0| == FRAME_LEN && l <= x <= r
    requires frame[..] == Paint(f0, Columns(Border(l, b, r, t), x), color)
    modifies frame
    ensures frame[..] == Paint(f0, Columns(Border(l, b, r, t), x + 1), color)
  {
    ghost var side := Border(l, b, r, t);
    BorderColumn(l, b, r, t, x, b);
    var y := b;
    while y <= t
      invariant b <= y <= Max(b, t + 1)
      invariant frame[..] == Paint(f0, Before(side, x, y), color)
    {
      ScanStep(f0, side, x, y, color);
      if x == l || x == r || y == b || y == t {
        DrawPixel(frame, x, y, color);
      }
      y := y + 1;
    }
    BorderColumn(l, b, r, t, x, y);
  }

  /** The inner loop of `draw_rectangle_fill`: column x of the box. */
  method FillColumn(frame: array<byte>, ghost f0: seq<byte>, l: int, b: int, r: int, t: int, x: int, color: u32)
    requires frame.Length == FRAME_LEN && |f0| == FRAME_LEN && l <= x <= r
    requires frame[..] == Paint(f0, Columns(Box(l, b, r, t), x), color)
    modifies frame
    ensures frame[..] == Paint(f0, Columns(Box(l, b, r, t), x + 1), color)
  {
    ghost var box := Box(l, b, r, t);
    BoxColumn(l, b, r, t, x, b);
    var y := b;
    while y <= t
      invariant b <= y <= Max(b, t + 1)
      invariant frame[..] == Paint(f0, Before(box, x, y), color)
    {
      ScanStep(f0, box, x, y, color);
      DrawPixel(frame, x, y, color);
      y := y + 1;
    }
    BoxColumn(l, b, r, t, x, y);
  }

  /** `draw_rectangle`: normalise, clamp, then visit the box and plot its sides. */
  method DrawRectangle(frame: array<byte>, x0: int, y0: int, x1: int, y1: int, color: u32)
    requires frame.Length == FRAME_LEN
    modifies frame
    ensures frame[..] == RectangleEffect(old(frame[..]), x0, y0, x1, y1, color)
  {
    var l, b, r, t := x0, y0, x1, y1;
    if r < l {
      l, r := r, l;
    }
    if t < b {
      b, t := t, b;
    }
    l := Max(l, -1);
    r := Min(r, WIDTH);
    b := Max(b, -1);
    t := Min(t, HEIGHT);
    ghost var f0 := frame[..];
    ghost var side := Border(l, b, r, t);
    var x := l;
    while x <= r
      invariant l <= x <= Max(l, r + 1)
      invariant frame[..] == Paint(f0, Columns(side, x), color)
    {
      OutlineColumn(frame, f0, l, b, r, t, x, color);
      x := x + 1;
    }
    assert Columns(side, x) == side;
  }

  /** `draw_rectangle_fill`: normalise, clamp, then plot every pixel of the box. */
  method DrawRectangleFill(frame: array<byte>, x0: int, y0: int, x1: int, y1: int, color: u32)
    requires frame.Length == FRAME_LEN
    modifies frame
    ensures frame[..] == RectangleFillEffect(old(frame[..]), x0, y0, x1, y1, color)
  {
    var l, b, r, t := x0, y0, x1, y1;
    if r < l {
      l, r := r, l;
    }
    if t < b {
      b, t := t, b;
    }
    l := Max(l, -1);
    r := Min(r, WIDTH);
    b := Max(b, -1);
    t := Min(t, HEIGHT);
    ghost var f0 := frame[..];
    ghost var box := Box(l, b, r, t);
    var x := l;
    while x <= r
      invariant l <= x <= Max(l, r + 1)
      invariant frame[..] == Paint(f0, Columns(box, x), color)
    {
      FillColumn(frame, f0, l, b, r, t, x, color);
      x := x + 1;
    }
    assert Columns(box, x) == box;
  }

  /** Either corner order, in either axis, draws the same rectangle. */
  lemma RectangleCornerOrder(f: seq<byte>, x0: int, y0: int, x1: int, y1: int, color: u32)
    requires |f| == FRAME_LEN
    ensures RectangleEffect(f, x0, y0, x1, y1, color) == RectangleEffect(f, x1, y1, x0, y0, color)
    ensures RectangleEffect(f, x0, y0, x1, y1, color) == RectangleEffect(f, x1, y0, x0, y1, color)
    ensures RectangleFillEffect(f, x0, y0, x1, y1, color) == RectangleFillEffect(f, x1, y1, x0, y0, color)
    ensures RectangleFillEffect(f, x0, y0, x1, y1, color) == RectangleFillEffect(f, x1, y0, x0, y1, color)
  {
    assert RectBounds(x0, y0, x1, y1) == RectBounds(x1, y1, x0, y0) == RectBounds(x1, y0, x0, y1);
  }

  /** The clamp loses nothing on screen: the fill colours exactly the on-screen
      pixels of the closed box between the corners. */
  lemma RectangleFillExact(f: seq<byte>, x0: int, y0: int, x1: int, y1: int, color: u32)
    requires |f| == FRAME_LEN
    ensures RectangleFillEffect(f, x0, y0, x1, y1, color)
      == Paint(f, Box(Min(x0, x1), Min(y0, y1), Max(x0, x1), Max(y0, y1)), color)
  {
    var (l, b, r, t) := RectBounds(x0, y0, x1, y1);
    PaintOnScreenPart(f, Box(l, b, r, t), Box(Min(x0, x1), Min(y0, y1), Max(x0, x1), Max(y0, y1)), color);
  }

  /** On screen, the outline is the border of the unclamped box: a side beyond the
      screen edge is clamped to just outside it (-1 or WIDTH/HEIGHT), so it is not
      drawn and no false edge appears at the screen border. */
  lemma RectangleOutlineExact(f: seq<byte>, x0: int, y0: int, x1: int, y1: int, color: u32)
    requires |f| == FRAME_LEN
    ensures RectangleEffect(f, x0, y0, x1, y1, color)
      == Paint(f, Border(Min(x0, x1), Min(y0, y1), Max(x0, x1), Max(y0, y1)), color)
  {
    var (l, b, r, t) := RectBounds(x0, y0, x1, y1);
    PaintOnScreenPart(f, Border(l, b, r, t), Border(Min(x0, x1), Min(y0, y1), Max(x0, x1), Max(y0, y1)), color);
  }

  /** The outline leaves the strict interior of the box, and all outside it, unchanged. */
  lemma RectangleOutlineKeepsInterior(f: seq<byte>, x0: int, y0: int, x1: int, y1: int, color: u32, k: int)
    requires |f| == FRAME_LEN && 0 <= k < FRAME_LEN
    requires var (l, b, r, t) := RectBounds(x0, y0, x1, y1);
      var p := PixelAt(k);
      !(l <= p.0 <= r && b <= p.1 <= t) || (l < p.0 < r && b < p.1 < t)
    ensures RectangleEffect(f, x0, y0, x1, y1, color)[k] == f[k]
  {
  }
}
