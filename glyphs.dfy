/** Bitmap sprites and text drawn with a bitmap font. */
module Glyphs {
  import opened Frame
  import opened Raster

  /** A sprite is a list of rows of 0/1 cells, its first row being the top one. */
  type Sprite = seq<seq<byte>>

  /** `draw_sprite` walks row i for the length of row i but reads row len-1-i:
      it stays in bounds exactly when mirrored rows have the same length. */
  predicate MirrorShaped(sprite: Sprite) {
    forall i :: 0 <= i < |sprite| ==> |sprite[i]| == |sprite[|sprite| - 1 - i]|
  }

  /** Cell j of row i counted from the bottom is set. */
  predicate Lit(sprite: Sprite, i: int, j: int) {
    && 0 <= i < |sprite| && 0 <= j < |sprite[i]|
    && j < |sprite[|sprite| - 1 - i]| && sprite[|sprite| - 1 - i][j] == 1
  }

  /** For a positive scale, screen pixel p of a sprite placed at (x, y) belongs to
      cell ((p.1 - y) / scale, (p.0 - x) / scale), at offset ((p.1 - y) % scale,
      (p.0 - x) % scale) inside the cell. */
  predicate InSprite(x: int, y: int, sprite: Sprite, scale: int, p: Point) {
    scale > 0 && p.0 >= x && p.1 >= y && Lit(sprite, (p.1 - y) / scale, (p.0 - x) / scale)
  }

  /** The pixels `draw_sprite` colours: every set cell blown up to a
      scale x scale block. Nothing for a scale of 0 or less. */
  ghost function SpriteRegion(x: int, y: int, sprite: Sprite, scale: int): iset<Point> {
    iset p: Point | InSprite(x, y, sprite, scale, p)
  }

  /** What `draw_sprite` does to a frame. */
  ghost function SpriteEffect(f: seq<byte>, x: int, y: int, sprite: Sprite, scale: int, color: u32): seq<byte>
    requires |f| == FRAME_LEN
  {
    Paint(f, SpriteRegion(x, y, sprite, scale), color)
  }

  /** The sprite pixels whose cell (row, column) comes before cell (i, j) in the
      order the loops of `draw_sprite` visit cells. */
  ghost function Done(x: int, y: int, sprite: Sprite, scale: int, i: int, j: int): iset<Point> {
    iset p: Point | InSprite(x, y, sprite, scale, p) && CellBefore(x, y, scale, p, i, j)
  }

  predicate CellBefore(x: int, y: int, scale: int, p: Point, i: int, j: int)
    requires scale > 0
  {
    var ci, cj := (p.1 - y) / scale, (p.0 - x) / scale;
    ci < i || (ci == i && cj < j)
  }

  /** Pixels cx .. cx+n-1 of row cy. */
  ghost function RowSpan(cx: int, cy: int, n: int): iset<Point> {
    iset p: Point | p.1 == cy && cx <= p.0 < cx + n
  }

  /** The w x h block whose bottom-left pixel is (cx, cy). */
  ghost function Block(cx: int, cy: int, w: int, h: int): iset<Point> {
    iset p: Point | cx <= p.0 < cx + w && cy <= p.1 < cy + h
  }

  /** Plotting the pixel after a painted row span paints the longer span. */
  lemma RowSpanNext(f0: seq<byte>, s: iset<Point>, cx: int, cy: int, n: int, c: u32)
    requires |f0| == FRAME_LEN && n >= 0
    ensures Plot(Paint(f0, s + RowSpan(cx, cy, n), c), cx + n, cy, c) == Paint(f0, s + RowSpan(cx, cy, n + 1), c)
  {
    PlotOnPaint(f0, s + RowSpan(cx, cy, n), cx + n, cy, c);
    PaintOnScreenPart(f0, (s + RowSpan(cx, cy, n)) + iset{(cx + n, cy)}, s + RowSpan(cx, cy, n + 1), c);
  }

  lemma BlockNext(s: iset<Point>, cx: int, cy: int, w: int, h: int)
    requires h >= 0
    ensures (s + Block(cx, cy, w, h)) + RowSpan(cx, cy + h, w) == s + Block(cx, cy, w, h + 1)
  {
  }

  /** Offset u splits into u / scale whole cells and u % scale left over. */
  lemma Split(u: int, scale: int)
    requires scale > 0 && u >= 0
    ensures u == scale * (u / scale) + u % scale
    ensures 0 <= u / scale && 0 <= u % scale < scale
  {
  }

  /** The pixel at offset u lies in cell c exactly when scale*c <= u < scale*c + scale. */
  lemma CellOf(u: int, scale: int, c: int)
    requires scale > 0 && 0 <= c
    ensures (u >= 0 && u / scale == c) <==> scale * c <= u < scale * c + scale
  {
    MulLe(scale, 0, c);
    if scale * c <= u < scale * c + scale {
      DivUnique(u, scale, c);
    }
    if u >= 0 && u / scale == c {
      Split(u, scale);
    }
  }

  /** The cell of every sprite pixel is a cell of the sprite. */
  lemma CellRange(x: int, y: int, sprite: Sprite, scale: int, p: Point)
    requires InSprite(x, y, sprite, scale, p)
    ensures 0 <= (p.1 - y) / scale < |sprite| && 0 <= (p.0 - x) / scale < |sprite[(p.1 - y) / scale]|
  {
  }

  lemma DoneStart(x: int, y: int, sprite: Sprite, scale: int)
    ensures forall p: Point :: p !in Done(x, y, sprite, scale, 0, 0)
  {
    forall p: Point | InSprite(x, y, sprite, scale, p) ensures !CellBefore(x, y, scale, p, 0, 0) {
      CellRange(x, y, sprite, scale, p);
    }
  }

  /** Visiting cell (i, j), whose block starts at (cx, cy), adds its block when it is set
      and nothing when it is clear. */
  lemma DoneCell(x: int, y: int, sprite: Sprite, scale: int, i: int, j: int, cx: int, cy: int)
    requires scale >= 0 && 0 <= i && 0 <= j
    requires cx == x + scale * j && cy == y + scale * i
    ensures Lit(sprite, i, j) ==> Done(x, y, sprite, scale, i, j) + Block(cx, cy, scale, scale) == Done(x, y, sprite, scale, i, j + 1)
    ensures !Lit(sprite, i, j) ==> Done(x, y, sprite, scale, i, j) == Done(x, y, sprite, scale, i, j + 1)
  {
    if scale > 0 {
      forall p: Point ensures p in Block(cx, cy, scale, scale) <==> ((p.0 - x) >= 0 && (p.0 - x) / scale == j && (p.1 - y) >= 0 && (p.1 - y) / scale == i) {
        CellOf(p.0 - x, scale, j);
        CellOf(p.1 - y, scale, i);
      }
    } else {
      assert Block(cx, cy, scale, scale) == iset{};
    }
  }

  /** Past the last cell of a row of cells comes the next row of cells. */
  lemma DoneCellRowEnd(x: int, y: int, sprite: Sprite, scale: int, i: int)
    requires 0 <= i < |sprite|
    ensures Done(x, y, sprite, scale, i, |sprite[i]|) == Done(x, y, sprite, scale, i + 1, 0)
  {
    forall p: Point | InSprite(x, y, sprite, scale, p) {
      CellRange(x, y, sprite, scale, p);
    }
  }

  /** Past the last row of cells every sprite pixel has been visited. */
  lemma DoneAll(x: int, y: int, sprite: Sprite, scale: int)
    ensures Done(x, y, sprite, scale, |sprite|, 0) == SpriteRegion(x, y, sprite, scale)
  {
    forall p: Point | InSprite(x, y, sprite, scale, p) {
      CellRange(x, y, sprite, scale, p);
    }
  }

  /** `draw_sprite`: every set cell, read bottom row first, as a scale x scale block.
      A negative scale returns before any row is read, so only a scale of 0 or more
      needs the rows to be mirror-shaped. */
  method DrawSprite(frame: array<byte>, x: int, y: int, sprite: Sprite, scale: int, color: u32)
    requires frame.Length == FRAME_LEN && (scale < 0 || MirrorShaped(sprite))
    modifies frame
    ensures frame[..] == SpriteEffect(old(frame[..]), x, y, sprite, scale, color)
  {
    ghost var f0 := frame[..];
    if scale < 0 {
      PaintNone(f0, SpriteRegion(x, y, sprite, scale), color);
      return;
    }
    DoneStart(x, y, sprite, scale);
    PaintNone(f0, Done(x, y, sprite, scale, 0, 0), color);
    for i := 0 to |sprite|
      invariant frame[..] == Paint(f0, Done(x, y, sprite, scale, i, 0), color)
    {
      for j := 0 to |sprite[i]|
        invariant frame[..] == Paint(f0, Done(x, y, sprite, scale, i, j), color)
      {
        var cx, cy := x + scale * j, y + scale * i;
        DoneCell(x, y, sprite, scale, i, j, cx, cy);
        if sprite[|sprite| - 1 - i][j] == 1 {
          DrawBlock(frame, f0, Done(x, y, sprite, scale, i, j), cx, cy, scale, color);
        }
      }
      DoneCellRowEnd(x, y, sprite, scale, i);
    }
    DoneAll(x, y, sprite, scale);
  }

  /** The two inner loops of `draw_sprite`: the scale x scale block of one set cell. */
  method DrawBlock(frame: array<byte>, ghost f0: seq<byte>, ghost before: iset<Point>,
                   cx: int, cy: int, scale: int, color: u32)
    requires frame.Length == FRAME_LEN && |f0| == FRAME_LEN && scale >= 0
    requires frame[..] == Paint(f0, before, color)
    modifies frame
    ensures frame[..] == Paint(f0, before + Block(cx, cy, scale, scale), color)
  {
    for di := 0 to scale
      invariant frame[..] == Paint(f0, before + Block(cx, cy, scale, di), color)
    {
      DrawBlockRow(frame, f0, before + Block(cx, cy, scale, di), cx, cy + di, scale, color);
      BlockNext(before, cx, cy, scale, di);
    }
  }

  /** The innermost loop of `draw_sprite`: one pixel row of a block. */
  method DrawBlockRow(frame: array<byte>, ghost f0: seq<byte>, ghost before: iset<Point>,
                      cx: int, cy: int, n: int, color: u32)
    requires frame.Length == FRAME_LEN && |f0| == FRAME_LEN && n >= 0
    requires frame[..] == Paint(f0, before, color)
    modifies frame
    ensures frame[..] == Paint(f0, before + RowSpan(cx, cy, n), color)
  {
    for dj := 0 to n
      invariant frame[..] == Paint(f0, before + RowSpan(cx, cy, dj), color)
    {
      RowSpanNext(f0, before, cx, cy, dj, color);
      DrawPixel(frame, cx + dj, cy, color);
    }
  }

  /** Seen from the screen: for a positive scale, the block of cell j of sprite row r
      (row 0 being the top row) is painted exactly when that cell is 1, and the
      first row ends up at the top, |sprite| - 1 cells above the placement point. */
  lemma SpriteFlip(x: int, y: int, sprite: Sprite, scale: int, r: int, j: int, di: int, dj: int)
    requires MirrorShaped(sprite) && scale > 0
    requires 0 <= r < |sprite| && 0 <= j < |sprite[r]| && 0 <= di < scale && 0 <= dj < scale
    ensures (x + scale * j + dj, y + scale * (|sprite| - 1 - r) + di) in SpriteRegion(x, y, sprite, scale)
      <==> sprite[r][j] == 1
  {
    var i := |sprite| - 1 - r;
    CellOf(scale * j + dj, scale, j);
    CellOf(scale * i + di, scale, i);
  }

  /** Every sprite pixel lies right of x and in the |sprite| * scale rows from y up. */
  lemma SpriteBounds(x: int, y: int, sprite: Sprite, scale: int, p: Point)
    requires p in SpriteRegion(x, y, sprite, scale)
    ensures x <= p.0 && y <= p.1 < y + scale * |sprite|
  {
    CellRange(x, y, sprite, scale, p);
    Split(p.1 - y, scale);
    MulLe(scale, (p.1 - y) / scale + 1, |sprite|);
  }

  /** A scale of 0 or less draws nothing. */
  lemma SpriteNonPositive(f: seq<byte>, x: int, y: int, sprite: Sprite, scale: int, color: u32)
    requires |f| == FRAME_LEN && scale <= 0
    ensures SpriteEffect(f, x, y, sprite, scale, color) == f
  {
    PaintNone(f, SpriteRegion(x, y, sprite, scale), color);
  }

  /** The glyphs `draw_text` uses: the font entries of the bytes below the font's length. */
  predicate GlyphsShaped(text: seq<byte>, font: seq<Sprite>) {
    forall k :: 0 <= k < |text| && text[k] < |font| ==> MirrorShaped(font[text[k]])
  }

  const LF: byte := 10

  /** How one byte moves the pen, where adv is the advance offset * scale: a byte
      with a glyph moves it adv right; a line feed with a glyph then returns it to
      column 0, adv lower; a byte without a glyph leaves it. */
  function Advance(pen: (int, int), c: byte, font: seq<Sprite>, adv: int): (int, int) {
    if c >= |font| then pen
    else if c == LF then (0, pen.1 - adv)
    else (pen.0 + adv, pen.1)
  }

  /** The pen offset (dx, dy) after `draw_text` has consumed the first n bytes. */
  function CursorAt(text: seq<byte>, font: seq<Sprite>, adv: int, n: int): (int, int)
    requires 0 <= n <= |text|
  {
    if n == 0 then (0, 0) else Advance(CursorAt(text, font, adv, n - 1), text[n - 1], font, adv)
  }

  /** The pen offset after the whole text. */
  function Cursor(text: seq<byte>, font: seq<Sprite>, adv: int): (int, int) {
    CursorAt(text, font, adv, |text|)
  }

  /** A sprite drawn at a position (x, y). */
  type Placement = (int, int, Sprite)

  /** The sprites `draw_text` draws for the first n bytes, in order, each at the pen
      position it is drawn at. */
  function Placements(x: int, y: int, text: seq<byte>, font: seq<Sprite>, adv: int, n: int): seq<Placement>
    requires 0 <= n <= |text|
  {
    if n == 0 then []
    else
      var pen, c := CursorAt(text, font, adv, n - 1), text[n - 1];
      Placements(x, y, text, font, adv, n - 1) + if c < |font| then [(x + pen.0, y + pen.1, font[c])] else []
  }

  /** The pixels a list of placed sprites colours. */
  ghost function Drawn(ps: seq<Placement>, scale: int): iset<Point>
    decreases |ps|
  {
    if |ps| == 0 then iset{}
    else
      var q := ps[|ps| - 1];
      Drawn(ps[..|ps| - 1], scale) + SpriteRegion(q.0, q.1, q.2, scale)
  }

  lemma DrawnNext(ps: seq<Placement>, q: Placement, scale: int)
    ensures Drawn(ps + [q], scale) == Drawn(ps, scale) + SpriteRegion(q.0, q.1, q.2, scale)
  {
    assert (ps + [q])[..|ps|] == ps;
  }

  /** What `draw_text` does to a frame: glyphs advance by offset * scale. */
  ghost function TextEffect(f: seq<byte>, x: int, y: int, text: seq<byte>, font: seq<Sprite>,
                            offset: int, scale: int, color: u32): seq<byte>
    requires |f| == FRAME_LEN
  {
    Paint(f, Drawn(Placements(x, y, text, font, offset * scale, |text|), scale), color)
  }

  /** One byte of `draw_text`: its glyph, if the font has one, is placed at the pen. */
  lemma TextStep(x: int, y: int, text: seq<byte>, font: seq<Sprite>, adv: int, k: int)
    requires 0 <= k < |text|
    ensures var pen, c := CursorAt(text, font, adv, k), text[k];
      Placements(x, y, text, font, adv, k + 1)
      == Placements(x, y, text, font, adv, k) + if c < |font| then [(x + pen.0, y + pen.1, font[c])] else []
  {
  }

  /** Drawing one more sprite over the sprites drawn so far. */
  lemma DrawnStep(f0: seq<byte>, ps: seq<Placement>, q: Placement, scale: int, color: u32)
    requires |f0| == FRAME_LEN
    ensures SpriteEffect(Paint(f0, Drawn(ps, scale), color), q.0, q.1, q.2, scale, color)
      == Paint(f0, Drawn(ps + [q], scale), color)
  {
    DrawnNext(ps, q, scale);
    PaintTwice(f0, Drawn(ps, scale), SpriteRegion(q.0, q.1, q.2, scale), color);
  }

  /** The `draw_sprite` call of `draw_text`, on top of the sprites drawn before it. */
  method DrawGlyph(frame: array<byte>, ghost f0: seq<byte>, ghost ps: seq<Placement>, ghost ps': seq<Placement>,
                   gx: int, gy: int, sprite: Sprite, scale: int, color: u32)
    requires frame.Length == FRAME_LEN && |f0| == FRAME_LEN && (scale < 0 || MirrorShaped(sprite))
    requires frame[..] == Paint(f0, Drawn(ps, scale), color)
    requires ps' == ps + [(gx, gy, sprite)]
    modifies frame
    ensures frame[..] == Paint(f0, Drawn(ps', scale), color)
  {
    DrawnStep(f0, ps, (gx, gy, sprite), scale, color);
    DrawSprite(frame, gx, gy, sprite, scale, color);
  }

  /** `draw_text`: one sprite per byte that has a glyph, the pen moving as Advance says. */
  method DrawText(frame: array<byte>, x: int, y: int, text: seq<byte>, font: seq<Sprite>,
                  offset: int, scale: int, color: u32)
    requires frame.Length == FRAME_LEN && (scale < 0 || GlyphsShaped(text, font))
    modifies frame
    ensures frame[..] == TextEffect(old(frame[..]), x, y, text, font, offset, scale, color)
  {
    ghost var f0 := frame[..];
    var dx, dy := 0, 0;
    var adv := offset * scale;
    ghost var drawn: seq<Placement> := [];
    PaintNone(f0, iset{}, color);
    for k := 0 to |text|
      invariant (dx, dy) == CursorAt(text, font, adv, k)
      invariant drawn == Placements(x, y, text, font, adv, k)
      invariant frame[..] == Paint(f0, Drawn(drawn, scale), color)
    {
      dx, dy, drawn := DrawChar(frame, f0, x, y, text, font, adv, scale, color, k, dx, dy, drawn);
    }
  }

  /** One iteration of `draw_text`: the glyph of byte k, if the font has one, drawn at
      the pen, and the pen moved on. */
  method DrawChar(frame: array<byte>, ghost f0: seq<byte>, x: int, y: int, text: seq<byte>, font: seq<Sprite>,
                  adv: int, scale: int, color: u32, k: int, dx: int, dy: int, ghost drawn: seq<Placement>)
      returns (dx': int, dy': int, ghost drawn': seq<Placement>)
    requires frame.Length == FRAME_LEN && |f0| == FRAME_LEN && (scale < 0 || GlyphsShaped(text, font)) && 0 <= k < |text|
    requires (dx, dy) == CursorAt(text, font, adv, k)
    requires drawn == Placements(x, y, text, font, adv, k)
    requires frame[..] == Paint(f0, Drawn(drawn, scale), color)
    modifies frame
    ensures (dx', dy') == CursorAt(text, font, adv, k + 1)
    ensures drawn' == Placements(x, y, text, font, adv, k + 1)
    ensures frame[..] == Paint(f0, Drawn(drawn', scale), color)
  {
    var c := text[k];
    TextStep(x, y, text, font, adv, k);
    drawn' := Placements(x, y, text, font, adv, k + 1);
    dx', dy' := dx, dy;
    if c < |font| {
      DrawGlyph(frame, f0, drawn, drawn', x + dx, y + dy, font[c], scale, color);
      dx' := dx + adv;
      if c == LF {
        dx' := 0;
        dy' := dy - adv;
      }
    } else {
      assert drawn' == drawn;
    }
  }

  /** Does one of the first n bytes of text hold a line feed the font has a glyph for? */
  predicate HasBreak(text: seq<byte>, font: seq<Sprite>, n: int) {
    exists k :: 0 <= k < n && k < |text| && text[k] == LF && LF < |font|
  }

  /** The number of the first n bytes of text that have a glyph. */
  function Glyphs(text: seq<byte>, font: seq<Sprite>, n: int): nat
    requires 0 <= n <= |text|
  {
    if n == 0 then 0 else Glyphs(text, font, n - 1) + (if text[n - 1] < |font| then 1 else 0)
  }

  /** The number of line feeds among the first n bytes of text that have a glyph. */
  function Breaks(text: seq<byte>, font: seq<Sprite>, n: int): nat
    requires 0 <= n <= |text|
  {
    if n == 0 then 0 else Breaks(text, font, n - 1) + (if text[n - 1] == LF && LF < |font| then 1 else 0)
  }

  /** Every line feed moves the pen one line down and nothing else moves it vertically. */
  lemma {:induction false} CursorLine(text: seq<byte>, font: seq<Sprite>, adv: int, n: int)
    requires 0 <= n <= |text|
    ensures CursorAt(text, font, adv, n).1 == -(Breaks(text, font, n) * adv)
  {
    if n > 0 {
      CursorLine(text, font, adv, n - 1);
      assert (Breaks(text, font, n - 1) + 1) * adv == Breaks(text, font, n - 1) * adv + adv;
    }
  }

  /** On a single line the pen has advanced once per glyph drawn. */
  lemma {:induction false} CursorColumn(text: seq<byte>, font: seq<Sprite>, adv: int, n: int)
    requires 0 <= n <= |text| && !HasBreak(text, font, n)
    ensures CursorAt(text, font, adv, n) == (Glyphs(text, font, n) * adv, 0)
  {
    if n > 0 {
      assert !HasBreak(text, font, n - 1);
      CursorColumn(text, font, adv, n - 1);
      assert (Glyphs(text, font, n - 1) + 1) * adv == Glyphs(text, font, n - 1) * adv + adv;
    }
  }

  /** The pen after a prefix depends on that prefix only. */
  lemma {:induction false} CursorPrefix(s: seq<byte>, t: seq<byte>, font: seq<Sprite>, adv: int, n: int)
    requires 0 <= n <= |s| && n <= |t| && s[..n] == t[..n]
    ensures CursorAt(s, font, adv, n) == CursorAt(t, font, adv, n)
  {
    if n > 0 {
      assert s[n - 1] == s[..n][n - 1] == t[n - 1];
      assert s[..n - 1] == s[..n][..n - 1];
      assert t[..n - 1] == t[..n][..n - 1];
      CursorPrefix(s, t, font, adv, n - 1);
    }
  }

  /** Text after a drawn line feed starts again at column 0: after a + b[..n] the column
      is the column of b[..n] alone once b[..n] holds a break, and the line is the
      sum of both lines. */
  lemma {:induction false} CursorAppend(a: seq<byte>, b: seq<byte>, font: seq<Sprite>, adv: int, n: int)
    requires 0 <= n <= |b|
    ensures var pa, pb := Cursor(a, font, adv), CursorAt(b, font, adv, n);
      CursorAt(a + b, font, adv, |a| + n) == (if HasBreak(b, font, n) then pb.0 else pa.0 + pb.0, pa.1 + pb.1)
  {
    if n == 0 {
      assert (a + b)[..|a|] == a[..|a|];
      CursorPrefix(a + b, a, font, adv, |a|);
    } else {
      CursorAppend(a, b, font, adv, n - 1);
      assert (a + b)[|a| + n - 1] == b[n - 1];
      if HasBreak(b, font, n) && b[n - 1] != LF {
        var k :| 0 <= k < n && k < |b| && b[k] == LF && LF < |font|;
        assert HasBreak(b, font, n - 1);
      }
    }
  }

  /** The first n bytes of text that have a glyph, in order. */
  function Known(text: seq<byte>, font: seq<Sprite>, n: int): seq<byte>
    requires 0 <= n <= |text|
  {
    if n == 0 then []
    else Known(text, font, n - 1) + (if text[n - 1] < |font| then [text[n - 1]] else [])
  }

  /** Bytes outside the font do not move the pen. */
  lemma {:induction false} KnownCursor(text: seq<byte>, font: seq<Sprite>, adv: int, n: int)
    requires 0 <= n <= |text|
    ensures Cursor(Known(text, font, n), font, adv) == CursorAt(text, font, adv, n)
  {
    if n > 0 {
      KnownCursor(text, font, adv, n - 1);
      var k0, k1 := Known(text, font, n - 1), Known(text, font, n);
      if text[n - 1] < |font| {
        assert k1 == k0 + [text[n - 1]];
        assert k1[..|k0|] == k0[..|k0|];
        CursorPrefix(k1, k0, font, adv, |k0|);
        assert k1[|k0|] == text[n - 1];
        assert Cursor(k1, font, adv) == Advance(CursorAt(k1, font, adv, |k0|), text[n - 1], font, adv);
      } else {
        assert k1 == k0;
      }
    }
  }

  /** Bytes outside the font draw nothing: dropping them leaves the sprites drawn, and
      where, as they are. */
  lemma {:induction false} KnownPlacements(x: int, y: int, text: seq<byte>, font: seq<Sprite>, adv: int, n: int)
    requires 0 <= n <= |text|
    ensures var kt := Known(text, font, n);
      Placements(x, y, kt, font, adv, |kt|) == Placements(x, y, text, font, adv, n)
  {
    if n > 0 {
      KnownPlacements(x, y, text, font, adv, n - 1);
      if text[n - 1] < |font| {
        KnownPlacementsStep(x, y, text, font, adv, n);
      } else {
        assert Known(text, font, n - 1) + [] == Known(text, font, n - 1);
        assert Known(text, font, n) == Known(text, font, n - 1);
        ghost var p0 := Placements(x, y, text, font, adv, n - 1);
        assert p0 + [] == p0;
        assert Placements(x, y, text, font, adv, n) == p0;
      }
    }
  }

  lemma KnownPlacementsStep(x: int, y: int, text: seq<byte>, font: seq<Sprite>, adv: int, n: int)
    requires 0 < n <= |text| && text[n - 1] < |font|
    ensures var k0, k1 := Known(text, font, n - 1), Known(text, font, n);
      var pen := CursorAt(text, font, adv, n - 1);
      Placements(x, y, k1, font, adv, |k1|)
      == Placements(x, y, k0, font, adv, |k0|) + [(x + pen.0, y + pen.1, font[text[n - 1]])]
  {
    var k0, k1 := Known(text, font, n - 1), Known(text, font, n);
    assert k1 == k0 + [text[n - 1]];
    assert k1[..|k0|] == k0[..|k0|];
    PlacementsPrefix(x, y, k1, k0, font, adv, |k0|);
    CursorPrefix(k1, k0, font, adv, |k0|);
    KnownCursor(text, font, adv, n - 1);
    assert k1[|k0|] == text[n - 1];
  }

  /** Every byte kept is one the font has a glyph for, and one is kept per glyph. */
  lemma {:induction false} KnownGlyphs(text: seq<byte>, font: seq<Sprite>, n: int)
    requires 0 <= n <= |text|
    ensures |Known(text, font, n)| == Glyphs(text, font, n)
    ensures forall k :: 0 <= k < |Known(text, font, n)| ==> Known(text, font, n)[k] < |font|
  {
    if n > 0 {
      KnownGlyphs(text, font, n - 1);
    }
  }

  /** The sprites of a prefix depend on that prefix only. */
  lemma {:induction false} PlacementsPrefix(x: int, y: int, s: seq<byte>, t: seq<byte>, font: seq<Sprite>, adv: int, n: int)
    requires 0 <= n <= |s| && n <= |t| && s[..n] == t[..n]
    ensures Placements(x, y, s, font, adv, n) == Placements(x, y, t, font, adv, n)
  {
    if n > 0 {
      assert s[n - 1] == s[..n][n - 1] == t[n - 1];
      assert s[..n - 1] == s[..n][..n - 1];
      assert t[..n - 1] == t[..n][..n - 1];
      PlacementsPrefix(x, y, s, t, font, adv, n - 1);
      CursorPrefix(s, t, font, adv, n - 1);
    }
  }
}
