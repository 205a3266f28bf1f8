/** The integer midpoint (Bresenham) line algorithm of the rasterizer. */
module Lines {
  import opened Frame

  function Abs(a: int): nat {
    if a < 0 then -a else a
  }

  function Max(a: int, b: int): int {
    if a < b then b else a
  }

  function Min(a: int, b: int): int {
    if a < b then a else b
  }

  /** The unit step towards a: +1 when a is zero too, as the rasterizer's
      default step `yi = 1` (or `xi = 1`) is. */
  function Step(a: int): int {
    if a < 0 then -1 else 1
  }

  /** Offset along the minor axis after i unit steps along the major axis, for a
      line spanning dMajor >= 0 major and dMinor minor units: the integer nearest
      to i*dMinor/dMajor, exact halves rounded towards the start of the line. */
  function MinorOffset(dMajor: int, dMinor: int, i: int): int {
    if dMajor <= 0 then 0 else Toward(dMinor, Steps(dMajor, Abs(dMinor), i))
  }

  /** v taken in the direction of d. */
  function Toward(d: int, v: int): int {
    if d < 0 then -v else v
  }

  /** The unsigned minor offset: floor((2*a*i + n - 1) / (2*n)). */
  function Steps(n: int, a: int, i: int): int
    requires n > 0
  {
    (2 * a * i + n - 1) / (2 * n)
  }

  /** The points of a line with |dy| < |dx| from its left end (xa, ya). */
  function XMajor(xa: int, ya: int, xb: int, yb: int): seq<Point>
    requires xa <= xb
  {
    seq(xb - xa + 1, i => (xa + i, ya + MinorOffset(xb - xa, yb - ya, i)))
  }

  /** The points of a line with |dx| <= |dy| from its lower end (xa, ya). */
  function YMajor(xa: int, ya: int, xb: int, yb: int): seq<Point>
    requires ya <= yb
  {
    seq(yb - ya + 1, i => (xa + MinorOffset(yb - ya, xb - xa, i), ya + i))
  }

  /** The pixels of the line from (x0, y0) to (x1, y1) in closed form: one per
      coordinate of the major axis, walked from the endpoint with the smaller
      major coordinate. */
  function Line(x0: int, y0: int, x1: int, y1: int): seq<Point> {
    if Abs(y1 - y0) < Abs(x1 - x0) then
      if x0 > x1 then XMajor(x1, y1, x0, y0) else XMajor(x0, y0, x1, y1)
    else
      if y0 > y1 then YMajor(x1, y1, x0, y0) else YMajor(x0, y0, x1, y1)
  }

  /** `bresenham`: orders the endpoints along the major axis, then walks it. */
  method Bresenham(x0: int, y0: int, x1: int, y1: int) returns (line: seq<Point>)
    ensures line == Line(x0, y0, x1, y1)
  {
    var xa, ya, xb, yb := x0, y0, x1, y1;
    if Abs(yb - ya) < Abs(xb - xa) {
      if xa > xb {
        xa, xb := xb, xa;
        ya, yb := yb, ya;
      }
      line := WalkX(xa, ya, xb, yb);
    } else {
      if ya > yb {
        xa, xb := xb, xa;
        ya, yb := yb, ya;
      }
      line := WalkY(xa, ya, xb, yb);
    }
  }

  /** The x-major branch of `bresenham`: decision variable d decides when y steps. */
  method WalkX(xa: int, ya: int, xb: int, yb: int) returns (line: seq<Point>)
    requires xa <= xb && Abs(yb - ya) < xb - xa
    ensures line == XMajor(xa, ya, xb, yb)
  {
    line := [];
    var dx := xb - xa;
    var dy := yb - ya;
    var yi := 1;
    if dy < 0 {
      yi := -1;
      dy := -dy;
    }
    var d := 2 * dy - dx;
    var y := ya;
    ghost var i, m := 0, 0;  // x and y steps taken so far
    for x := xa to xb + 1
      invariant x == xa + i
      invariant yi == Step(yb - ya) && y == ya + Toward(yb - ya, m)
      invariant d == Err(dx, dy, i, m) + 2 * dy - dx
      invariant Tracks(dx, dy, i, m)
      invariant line == XMajor(xa, ya, xb, yb)[..i]
    {
      XPrefixNext(xa, ya, xb, yb, i, m);
      line := line + [(x, y)];
      DecisionStep(dx, dy, i, m, d);
      if d > 0 {
        y := y + yi;
        d := d + 2 * (dy - dx);
        m := m + 1;
      } else {
        d := d + 2 * dy;
      }
      i := i + 1;
    }
    TakeAll(XMajor(xa, ya, xb, yb));
  }

  /** The y-major branch of `bresenham`: decision variable d decides when x steps. */
  method WalkY(xa: int, ya: int, xb: int, yb: int) returns (line: seq<Point>)
    requires ya <= yb && Abs(xb - xa) <= yb - ya
    ensures line == YMajor(xa, ya, xb, yb)
  {
    line := [];
    var dx := xb - xa;
    var dy := yb - ya;
    var xi := 1;
    if dx < 0 {
      xi := -1;
      dx := -dx;
    }
    var d := 2 * dx - dy;
    var x := xa;
    ghost var i, m := 0, 0;  // y and x steps taken so far
    for y := ya to yb + 1
      invariant y == ya + i
      invariant xi == Step(xb - xa) && x == xa + Toward(xb - xa, m)
      invariant d == Err(dy, dx, i, m) + 2 * dx - dy
      invariant Tracks(dy, dx, i, m)
      invariant line == YMajor(xa, ya, xb, yb)[..i]
    {
      YPrefixNext(xa, ya, xb, yb, i, m);
      line := line + [(x, y)];
      DecisionStep(dy, dx, i, m, d);
      if d > 0 {
        x := x + xi;
        d := d + 2 * (dx - dy);
        m := m + 1;
      } else {
        d := d + 2 * dx;
      }
      i := i + 1;
    }
    TakeAll(YMajor(xa, ya, xb, yb));
  }

  /** The next point the x-major walk emits is the next point of XMajor. */
  lemma XPrefixNext(xa: int, ya: int, xb: int, yb: int, i: int, m: int)
    requires xa <= xb && 0 <= i <= xb - xa && Tracks(xb - xa, Abs(yb - ya), i, m)
    ensures XMajor(xa, ya, xb, yb)[..i + 1] == XMajor(xa, ya, xb, yb)[..i] + [(xa + i, ya + Toward(yb - ya, m))]
  {
    OffsetStep(xb - xa, yb - ya, i, m);
    TakeNext(XMajor(xa, ya, xb, yb), i);
  }

  /** The next point the y-major walk emits is the next point of YMajor. */
  lemma YPrefixNext(xa: int, ya: int, xb: int, yb: int, i: int, m: int)
    requires ya <= yb && 0 <= i <= yb - ya && Tracks(yb - ya, Abs(xb - xa), i, m)
    ensures YMajor(xa, ya, xb, yb)[..i + 1] == YMajor(xa, ya, xb, yb)[..i] + [(xa + Toward(xb - xa, m), ya + i)]
  {
    OffsetStep(yb - ya, xb - xa, i, m);
    TakeNext(YMajor(xa, ya, xb, yb), i);
  }

  lemma TakeAll<T>(s: seq<T>)
    ensures s[..|s|] == s
  {
  }

  lemma TakeNext<T>(s: seq<T>, j: int)
    requires 0 <= j < |s|
    ensures s[..j + 1] == s[..j] + [s[j]]
  {
  }

  /** One step of the decision variable keeps it tracking the walked offset. */
  lemma DecisionStep(n: int, a: int, i: int, m: int, d: int)
    requires 0 <= a <= n && Tracks(n, a, i, m) && d == Err(n, a, i, m) + 2 * a - n
    ensures d > 0 ==> Tracks(n, a, i + 1, m + 1) && d + 2 * (a - n) == Err(n, a, i + 1, m + 1) + 2 * a - n
    ensures d <= 0 ==> Tracks(n, a, i + 1, m) && d + 2 * a == Err(n, a, i + 1, m) + 2 * a - n
  {
    ErrNext(n, a, i, m);
  }

  /** Twice the signed distance, in minor units scaled by n, between the walked
      offset m and the ideal a*i/n. */
  function Err(n: int, a: int, i: int, m: int): int {
    2 * a * i - 2 * n * m
  }

  lemma ErrNext(n: int, a: int, i: int, m: int)
    ensures Err(n, a, i + 1, m) == Err(n, a, i, m) + 2 * a
    ensures Err(n, a, i + 1, m + 1) == Err(n, a, i, m) + 2 * a - 2 * n
  {
  }

  /** The invariant the decision variable keeps: the walked offset m is within
      half a step of the ideal one (a degenerate line never steps). */
  predicate Tracks(n: int, a: int, i: int, m: int) {
    (n == 0 && a == 0 && m == 0) || (n > 0 && -n < Err(n, a, i, m) <= n)
  }

  /** The decision-variable bound pins the walked offset m to MinorOffset. */
  lemma OffsetStep(n: int, dm: int, i: int, m: int)
    requires n >= 0 && Tracks(n, Abs(dm), i, m)
    ensures MinorOffset(n, dm, i) == Toward(dm, m)
  {
    if n > 0 {
      DivUnique(2 * Abs(dm) * i + n - 1, 2 * n, m);
    }
  }

  /** Floor bounds of Steps. */
  lemma StepsFloor(n: int, a: int, i: int)
    requires n > 0
    ensures 2 * n * Steps(n, a, i) <= 2 * a * i + n - 1 < 2 * n * Steps(n, a, i) + 2 * n
  {
    var b := 2 * a * i + n - 1;
    assert b == 2 * n * (b / (2 * n)) + b % (2 * n);
  }

  /** Adding at most one divisor to the numerator raises the quotient by 0 or 1. */
  lemma QuotientStep(a: int, c: int, b: int)
    requires b > 0 && 0 <= c <= b
    ensures (a + c) / b == a / b || (a + c) / b == a / b + 1
  {
    var q, r := a / b, a % b;
    assert a == b * q + r && 0 <= r < b;
    if r + c < b {
      DivUnique(a + c, b, q);
    } else {
      assert b * (q + 1) == b * q + b;
      DivUnique(a + c, b, q + 1);
    }
  }

  /** Steps starts at 0 and ends at a. */
  lemma StepsEnds(n: int, a: int)
    requires n > 0 && 0 <= a <= n
    ensures Steps(n, a, 0) == 0 && Steps(n, a, n) == a
  {
    DivUnique(n - 1, 2 * n, 0);
    assert 2 * a * n + n - 1 == 2 * n * a + (n - 1);
    DivUnique(2 * a * n + n - 1, 2 * n, a);
  }

  /** Steps grows by 0 or 1 per unit step. */
  lemma StepsStep(n: int, a: int, i: int)
    requires n > 0 && 0 <= a <= n
    ensures Steps(n, a, i + 1) == Steps(n, a, i) || Steps(n, a, i + 1) == Steps(n, a, i) + 1
  {
    assert 2 * a * (i + 1) + n - 1 == (2 * a * i + n - 1) + 2 * a;
    QuotientStep(2 * a * i + n - 1, 2 * a, 2 * n);
  }

  /** Along the line, Steps stays between 0 and a. */
  lemma StepsBounds(n: int, a: int, i: int)
    requires n > 0 && 0 <= a <= n && 0 <= i <= n
    ensures 0 <= Steps(n, a, i) <= a
  {
    StepsFloor(n, a, i);
    FloorBounds(n, a, i, Steps(n, a, i));
  }

  lemma FloorBounds(n: int, a: int, i: int, f: int)
    requires n > 0 && 0 <= a <= n && 0 <= i <= n
    requires 2 * n * f <= 2 * a * i + n - 1 < 2 * n * f + 2 * n
    ensures 0 <= f <= a
  {
    MulLe(2 * a, i, n);
    assert 2 * n * f + 2 * n == 2 * n * (f + 1);
    MulLt(2 * n, 0, f + 1);
    assert 2 * a * n + 2 * n == 2 * n * (a + 1);
    MulLt(2 * n, f, a + 1);
  }

  lemma MulLt(b: int, m: int, k: int)
    requires b > 0 && b * m < b * k
    ensures m < k
  {
    if m >= k {
      MulLe(b, k, m);
    }
  }

  /** MinorOffset starts at 0 and ends at dMinor. */
  lemma OffsetEnds(n: int, dm: int)
    requires n > 0 && Abs(dm) <= n
    ensures MinorOffset(n, dm, 0) == 0
    ensures MinorOffset(n, dm, n) == dm
  {
    StepsEnds(n, Abs(dm));
  }

  /** Each unit step on the major axis moves the minor axis by 0 or by Step(dMinor). */
  lemma OffsetSteps(n: int, dm: int, i: int)
    requires n > 0 && Abs(dm) <= n
    ensures MinorOffset(n, dm, i + 1) == MinorOffset(n, dm, i) || MinorOffset(n, dm, i + 1) == MinorOffset(n, dm, i) + Step(dm)
  {
    StepsStep(n, Abs(dm), i);
  }

  /** Between the ends, the offset stays between 0 and dMinor. */
  lemma OffsetBounds(n: int, dm: int, i: int)
    requires n > 0 && Abs(dm) <= n && 0 <= i <= n
    ensures Min(0, dm) <= MinorOffset(n, dm, i) <= Max(0, dm)
  {
    StepsBounds(n, Abs(dm), i);
  }

  /** The offset is within half a pixel of the ideal i*dMinor/dMajor. */
  lemma OffsetNear(n: int, dm: int, i: int)
    requires n > 0
    ensures Abs(2 * n * MinorOffset(n, dm, i) - 2 * dm * i) <= n
  {
    StepsFloor(n, Abs(dm), i);
    var f := Steps(n, Abs(dm), i);
    if dm < 0 {
      assert 2 * n * MinorOffset(n, dm, i) - 2 * dm * i == -(2 * n * f - 2 * Abs(dm) * i);
    }
  }

  /** Twice the cross product of p - a with b - a: zero exactly on the ideal line. */
  function Cross(p: Point, a: Point, b: Point): int {
    (p.0 - a.0) * (b.1 - a.1) - (p.1 - a.1) * (b.0 - a.0)
  }

  /** A line has one point per unit of its longer span, plus one. */
  lemma LineLength(x0: int, y0: int, x1: int, y1: int)
    ensures |Line(x0, y0, x1, y1)| == Max(Abs(x1 - x0), Abs(y1 - y0)) + 1
  {
  }

  /** Its first and last points are the two endpoints; the first is the one
      with the smaller major-axis coordinate. */
  lemma LineEndpoints(x0: int, y0: int, x1: int, y1: int)
    ensures var l := Line(x0, y0, x1, y1);
      || (l[0] == (x0, y0) && l[|l| - 1] == (x1, y1))
      || (l[0] == (x1, y1) && l[|l| - 1] == (x0, y0))
    ensures var l := Line(x0, y0, x1, y1);
      if Abs(y1 - y0) < Abs(x1 - x0) then l[0].0 == Min(x0, x1) else l[0].1 == Min(y0, y1)
  {
    if Abs(y1 - y0) < Abs(x1 - x0) {
      if x0 > x1 { XMajorEnds(x1, y1, x0, y0); } else { XMajorEnds(x0, y0, x1, y1); }
    } else {
      if y0 > y1 { YMajorEnds(x1, y1, x0, y0); } else { YMajorEnds(x0, y0, x1, y1); }
    }
  }

  lemma XMajorEnds(xa: int, ya: int, xb: int, yb: int)
    requires xa <= xb && Abs(yb - ya) <= xb - xa
    ensures var l := XMajor(xa, ya, xb, yb); l[0] == (xa, ya) && l[|l| - 1] == (xb, yb)
  {
    if xa < xb {
      OffsetEnds(xb - xa, yb - ya);
    }
  }

  lemma YMajorEnds(xa: int, ya: int, xb: int, yb: int)
    requires ya <= yb && Abs(xb - xa) <= yb - ya
    ensures var l := YMajor(xa, ya, xb, yb); l[0] == (xa, ya) && l[|l| - 1] == (xb, yb)
  {
    if ya < yb {
      OffsetEnds(yb - ya, xb - xa);
    }
  }

  /** Consecutive points advance by exactly 1 in x and by 0 or one unit towards
      the last point in y. */
  predicate StepsAlongX(l: seq<Point>) {
    forall k :: 0 <= k < |l| - 1 ==>
      l[k + 1].0 == l[k].0 + 1 && (l[k + 1].1 == l[k].1 || l[k + 1].1 == l[k].1 + Step(l[|l| - 1].1 - l[0].1))
  }

  /** Consecutive points advance by exactly 1 in y and by 0 or one unit towards
      the last point in x. */
  predicate StepsAlongY(l: seq<Point>) {
    forall k :: 0 <= k < |l| - 1 ==>
      l[k + 1].1 == l[k].1 + 1 && (l[k + 1].0 == l[k].0 || l[k + 1].0 == l[k].0 + Step(l[|l| - 1].0 - l[0].0))
  }

  /** A line is 8-connected without doubling back: each point advances by one on
      the major axis and by 0 or one unit on the minor axis. */
  lemma LineSteps(x0: int, y0: int, x1: int, y1: int)
    ensures Abs(y1 - y0) < Abs(x1 - x0) ==> StepsAlongX(Line(x0, y0, x1, y1))
    ensures Abs(x1 - x0) <= Abs(y1 - y0) ==> StepsAlongY(Line(x0, y0, x1, y1))
  {
    if Abs(y1 - y0) < Abs(x1 - x0) {
      if x0 > x1 { XMajorSteps(x1, y1, x0, y0); } else { XMajorSteps(x0, y0, x1, y1); }
    } else {
      if y0 > y1 { YMajorSteps(x1, y1, x0, y0); } else { YMajorSteps(x0, y0, x1, y1); }
    }
  }

  lemma XMajorSteps(xa: int, ya: int, xb: int, yb: int)
    requires xa <= xb && Abs(yb - ya) <= xb - xa
    ensures StepsAlongX(XMajor(xa, ya, xb, yb))
  {
    var l := XMajor(xa, ya, xb, yb);
    if xa < xb {
      OffsetEnds(xb - xa, yb - ya);
      assert l[|l| - 1].1 - l[0].1 == yb - ya;
      forall k | 0 <= k < |l| - 1
        ensures l[k + 1].0 == l[k].0 + 1 && (l[k + 1].1 == l[k].1 || l[k + 1].1 == l[k].1 + Step(yb - ya))
      {
        OffsetSteps(xb - xa, yb - ya, k);
      }
    }
  }

  lemma YMajorSteps(xa: int, ya: int, xb: int, yb: int)
    requires ya <= yb && Abs(xb - xa) <= yb - ya
    ensures StepsAlongY(YMajor(xa, ya, xb, yb))
  {
    var l := YMajor(xa, ya, xb, yb);
    if ya < yb {
      OffsetEnds(yb - ya, xb - xa);
      assert l[|l| - 1].0 - l[0].0 == xb - xa;
      forall k | 0 <= k < |l| - 1
        ensures l[k + 1].1 == l[k].1 + 1 && (l[k + 1].0 == l[k].0 || l[k + 1].0 == l[k].0 + Step(xb - xa))
      {
        OffsetSteps(yb - ya, xb - xa, k);
      }
    }
  }

  /** Every point lies in the bounding box of the endpoints. */
  lemma LineInBox(x0: int, y0: int, x1: int, y1: int)
    ensures forall p :: p in Line(x0, y0, x1, y1) ==>
      Min(x0, x1) <= p.0 <= Max(x0, x1) && Min(y0, y1) <= p.1 <= Max(y0, y1)
  {
    var l := Line(x0, y0, x1, y1);
    forall k | 0 <= k < |l|
      ensures Min(x0, x1) <= l[k].0 <= Max(x0, x1) && Min(y0, y1) <= l[k].1 <= Max(y0, y1)
    {
      if Abs(y1 - y0) < Abs(x1 - x0) {
        OffsetBounds(Abs(x1 - x0), if x0 > x1 then y0 - y1 else y1 - y0, k);
      } else if y0 != y1 {
        OffsetBounds(Abs(y1 - y0), if y0 > y1 then x0 - x1 else x1 - x0, k);
      }
    }
  }

  /** Every point is within half a pixel, measured along the minor axis, of the
      ideal segment: |2 * cross| <= the major span. */
  lemma LineNearIdeal(x0: int, y0: int, x1: int, y1: int)
    ensures forall p :: p in Line(x0, y0, x1, y1) ==>
      2 * Abs(Cross(p, (x0, y0), (x1, y1))) <= Max(Abs(x1 - x0), Abs(y1 - y0))
  {
    var l := Line(x0, y0, x1, y1);
    if Abs(y1 - y0) < Abs(x1 - x0) {
      if x0 > x1 { XMajorNear(x1, y1, x0, y0); } else { XMajorNear(x0, y0, x1, y1); }
    } else {
      if y0 > y1 { YMajorNear(x1, y1, x0, y0); } else { YMajorNear(x0, y0, x1, y1); }
    }
    forall p | p in l ensures Abs(Cross(p, (x0, y0), (x1, y1))) == Abs(Cross(p, (x1, y1), (x0, y0))) {
      CrossSwap(p, (x0, y0), (x1, y1));
    }
  }

  lemma XMajorNear(xa: int, ya: int, xb: int, yb: int)
    requires xa <= xb
    ensures forall p :: p in XMajor(xa, ya, xb, yb) ==> 2 * Abs(Cross(p, (xa, ya), (xb, yb))) <= xb - xa
  {
    var l := XMajor(xa, ya, xb, yb);
    forall k | 0 <= k < |l| ensures 2 * Abs(Cross(l[k], (xa, ya), (xb, yb))) <= xb - xa {
      var n, dm := xb - xa, yb - ya;
      if n > 0 {
        var v := MinorOffset(n, dm, k);
        OffsetNear(n, dm, k);
        CrossAt(l[k], (xa, ya), (xb, yb), k, v);
        NearFromOffset(n, dm, k, v);
      }
    }
  }

  lemma YMajorNear(xa: int, ya: int, xb: int, yb: int)
    requires ya <= yb && Abs(xb - xa) <= yb - ya
    ensures forall p :: p in YMajor(xa, ya, xb, yb) ==> 2 * Abs(Cross(p, (xa, ya), (xb, yb))) <= yb - ya
  {
    var l := YMajor(xa, ya, xb, yb);
    forall k | 0 <= k < |l| ensures 2 * Abs(Cross(l[k], (xa, ya), (xb, yb))) <= yb - ya {
      var n, dm := yb - ya, xb - xa;
      if n > 0 {
        var v := MinorOffset(n, dm, k);
        OffsetNear(n, dm, k);
        CrossAt(l[k], (xa, ya), (xb, yb), v, k);
        NearFromOffset(n, dm, k, v);
      }
    }
  }

  lemma NearFromOffset(n: int, dm: int, u: int, v: int)
    requires Abs(2 * n * v - 2 * dm * u) <= n
    ensures 2 * Abs(u * dm - v * n) <= n && 2 * Abs(v * n - u * dm) <= n
  {
    assert 2 * (u * dm - v * n) == -(2 * n * v - 2 * dm * u);
  }

  lemma CrossAt(p: Point, a: Point, b: Point, u: int, v: int)
    requires p == (a.0 + u, a.1 + v)
    ensures Cross(p, a, b) == u * (b.1 - a.1) - v * (b.0 - a.0)
  {
  }

  /** Swapping the endpoints only flips the sign of the cross product. */
  lemma CrossSwap(p: Point, a: Point, b: Point)
    ensures Cross(p, b, a) == -Cross(p, a, b)
  {
    var u0, u1, w0, w1 := p.0 - a.0, p.1 - a.1, b.0 - a.0, b.1 - a.1;
    assert Cross(p, b, a) == (u0 - w0) * (-w1) - (u1 - w1) * (-w0);
  }

  /** The normalising swaps make the line independent of the endpoint order. */
  lemma LineSymmetric(x0: int, y0: int, x1: int, y1: int)
    ensures Line(x0, y0, x1, y1) == Line(x1, y1, x0, y0)
  {
  }

  /** Equal endpoints give the single point. */
  lemma LineSinglePoint(x: int, y: int)
    ensures Line(x, y, x, y) == [(x, y)]
  {
  }
}
