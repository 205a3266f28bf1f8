/** The pixel frame the rasterizer draws into: a flat RGBA byte buffer of
    WIDTH*HEIGHT pixels, the top screen row stored first. */
module Frame {

  const WIDTH: int := 320
  const HEIGHT: int := 240
  const FRAME_LEN: int := WIDTH * HEIGHT * 4

  type byte = b: int | 0 <= b < 256
  /** A packed 32-bit colour 0xRRGGBBAA. */
  type u32 = c: int | 0 <= c < 0x1_0000_0000

  /** Screen coordinates (x, y), y growing upwards. */
  type Point = (int, int)

  predicate OnScreen(x: int, y: int) {
    0 <= x < WIDTH && 0 <= y < HEIGHT
  }

  /** Offset of the first byte of pixel (x, y): rows are stored top row first,
      so the visual y is flipped. */
  function PixelIndex(x: int, y: int): int {
    ((HEIGHT - 1 - y) * WIDTH + x) * 4
  }

  /** Byte k of a pixel: k = 0 is red (bits 31..24) down to k = 3, alpha (bits 7..0),
      i.e. `(color >> (24 - 8k)) as u8`. */
  function Channel(c: u32, k: int): byte
    requires 0 <= k < 4
  {
    if k == 0 then (c / 0x100_0000) % 256
    else if k == 1 then (c / 0x1_0000) % 256
    else if k == 2 then (c / 0x100) % 256
    else c % 256
  }

  /** The pixel that byte k of a frame belongs to. */
  function PixelAt(k: int): Point
    requires 0 <= k
  {
    ((k / 4) % WIDTH, HEIGHT - 1 - (k / 4) / WIDTH)
  }

  /** The effect of one pixel write: nothing off screen, else the four channel
      bytes of c at PixelIndex(x, y). */
  function Plot(f: seq<byte>, x: int, y: int, c: u32): seq<byte>
    requires |f| == FRAME_LEN
  {
    if !OnScreen(x, y) then f
    else
      var i := PixelIndex(x, y);
      f[i := Channel(c, 0)][i + 1 := Channel(c, 1)][i + 2 := Channel(c, 2)][i + 3 := Channel(c, 3)]
  }

  /** The frame after colouring every on-screen pixel of region s with c. */
  function Paint(f: seq<byte>, s: iset<Point>, c: u32): (r: seq<byte>)
    requires |f| == FRAME_LEN
    ensures |r| == FRAME_LEN
    ensures forall k :: 0 <= k < FRAME_LEN && PixelAt(k) !in s ==> r[k] == f[k]
    ensures forall k :: 0 <= k < FRAME_LEN && PixelAt(k) in s ==> r[k] == Channel(c, k % 4)
  {
    seq(FRAME_LEN, k requires 0 <= k < FRAME_LEN => if PixelAt(k) in s then Channel(c, k % 4) else f[k])
  }

  /** Every byte of a frame belongs to an on-screen pixel. */
  lemma PixelAtOnScreen(k: int)
    requires 0 <= k < FRAME_LEN
    ensures OnScreen(PixelAt(k).0, PixelAt(k).1)
  {
    var p := k / 4;
    assert 0 <= p < WIDTH * HEIGHT;
    assert 0 <= p / WIDTH < HEIGHT;
  }

  lemma DivUnique(a: int, b: int, q: int)
    requires b > 0 && b * q <= a < b * q + b
    ensures a / b == q && a % b == a - b * q
  {
    var q', r' := a / b, a % b;
    assert a == b * q' + r' && 0 <= r' < b;
    if q' < q {
      MulLe(b, q' + 1, q);
    } else if q' > q {
      MulLe(b, q + 1, q');
    }
  }

  lemma MulLe(b: int, m: int, n: int)
    requires b >= 0 && m <= n
    ensures b * m <= b * n
  {
    assert b * n - b * m == b * (n - m);
  }

  /** A byte belongs to the on-screen pixel (x, y) exactly when it is one of the
      four bytes starting at PixelIndex(x, y); that index lies inside the frame. */
  lemma PixelAtIndex(x: int, y: int, k: int)
    requires OnScreen(x, y) && 0 <= k < FRAME_LEN
    ensures 0 <= PixelIndex(x, y) && PixelIndex(x, y) + 3 < FRAME_LEN
    ensures PixelAt(k) == (x, y) <==> PixelIndex(x, y) <= k < PixelIndex(x, y) + 4
    ensures PixelAt(k) == (x, y) ==> k % 4 == k - PixelIndex(x, y)
  {
    var q := (HEIGHT - 1 - y) * WIDTH + x;
    assert PixelIndex(x, y) == 4 * q;
    assert 0 <= q < WIDTH * HEIGHT;
    var p := k / 4;
    DivUnique(k, 4, p);
    if PixelIndex(x, y) <= k < PixelIndex(x, y) + 4 {
      DivUnique(k, 4, q);
      DivUnique(q, WIDTH, HEIGHT - 1 - y);
    }
    if PixelAt(k) == (x, y) {
      assert p % WIDTH == x && p / WIDTH == HEIGHT - 1 - y;
      assert p == WIDTH * (p / WIDTH) + p % WIDTH;
      assert p == q;
    }
  }

  /** Plot agrees with Paint of the single pixel it names. */
  lemma PlotIsPaint(f: seq<byte>, x: int, y: int, c: u32)
    requires |f| == FRAME_LEN
    ensures Plot(f, x, y, c) == Paint(f, iset{(x, y)}, c)
  {
    var r, s := Plot(f, x, y, c), Paint(f, iset{(x, y)}, c);
    if OnScreen(x, y) {
      forall k | 0 <= k < FRAME_LEN ensures r[k] == s[k] {
        PixelAtIndex(x, y, k);
      }
    } else {
      forall k | 0 <= k < FRAME_LEN ensures r[k] == s[k] {
        PixelAtOnScreen(k);
      }
    }
  }

  /** A write outside the screen leaves the frame as it was; one inside writes
      exactly the bytes i..i+3 with i = ((HEIGHT-1-y)*WIDTH + x)*4, as R, G, B, A,
      and no other byte. */
  lemma PlotBytes(f: seq<byte>, x: int, y: int, c: u32)
    requires |f| == FRAME_LEN
    ensures |Plot(f, x, y, c)| == FRAME_LEN
    ensures !OnScreen(x, y) ==> Plot(f, x, y, c) == f
    ensures OnScreen(x, y) ==>
      var i, r := PixelIndex(x, y), Plot(f, x, y, c);
      && 0 <= i && i + 3 < FRAME_LEN
      && r[i] == (c / 0x100_0000) % 256 && r[i + 1] == (c / 0x1_0000) % 256
      && r[i + 2] == (c / 0x100) % 256 && r[i + 3] == c % 256
      && forall k :: 0 <= k < FRAME_LEN && !(i <= k < i + 4) ==> r[k] == f[k]
  {
    if OnScreen(x, y) {
      PixelAtIndex(x, y, 0);
    }
  }

  /** The four channel bytes reassemble into the packed colour (big-endian order). */
  lemma ChannelsPack(c: u32)
    ensures Channel(c, 0) * 0x100_0000 + Channel(c, 1) * 0x1_0000 + Channel(c, 2) * 0x100 + Channel(c, 3) == c
  {
    var r, g, b, a := c / 0x100_0000, (c / 0x1_0000) % 256, (c / 0x100) % 256, c % 256;
    assert c / 0x100_0000 < 256;
    assert c / 0x1_0000 == (c / 0x100) / 256;
    assert c / 0x100_0000 == (c / 0x1_0000) / 256;
    assert c == (c / 0x100) * 256 + a;
    assert c / 0x100 == (c / 0x1_0000) * 256 + b;
    assert c / 0x1_0000 == r * 256 + g;
  }

  /** Painting a pixel on top of a painted region in the same colour paints the
      region with that pixel added. */
  lemma PlotOnPaint(f: seq<byte>, s: iset<Point>, x: int, y: int, c: u32)
    requires |f| == FRAME_LEN
    ensures Plot(Paint(f, s, c), x, y, c) == Paint(f, s + iset{(x, y)}, c)
  {
    PlotIsPaint(Paint(f, s, c), x, y, c);
    PaintTwice(f, s, iset{(x, y)}, c);
  }

  /** Painting two regions in the same colour one after the other paints their union. */
  lemma PaintTwice(f: seq<byte>, s: iset<Point>, t: iset<Point>, c: u32)
    requires |f| == FRAME_LEN
    ensures Paint(Paint(f, s, c), t, c) == Paint(f, s + t, c)
  {
  }

  /** Only the on-screen part of a region matters. */
  lemma PaintOnScreenPart(f: seq<byte>, s: iset<Point>, t: iset<Point>, c: u32)
    requires |f| == FRAME_LEN
    requires forall p: Point :: OnScreen(p.0, p.1) ==> (p in s <==> p in t)
    ensures Paint(f, s, c) == Paint(f, t, c)
  {
    forall k | 0 <= k < FRAME_LEN ensures Paint(f, s, c)[k] == Paint(f, t, c)[k] {
      PixelAtOnScreen(k);
    }
  }

  /** Painting a region with no on-screen pixel leaves the frame as it was. */
  lemma PaintNone(f: seq<byte>, s: iset<Point>, c: u32)
    requires |f| == FRAME_LEN
    requires forall p: Point :: OnScreen(p.0, p.1) ==> p !in s
    ensures Paint(f, s, c) == f
  {
    forall k | 0 <= k < FRAME_LEN ensures Paint(f, s, c)[k] == f[k] {
      PixelAtOnScreen(k);
    }
  }
}
