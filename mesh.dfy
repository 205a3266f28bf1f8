/** Drawing polygons and meshes given in world space: each vertex is projected
    to the screen and the 2D primitives do the drawing. */
module Mesh {
  import opened Frame
  import opened Lines
  import opened Raster

  /** A projected vertex: integer screen coordinates and whether the vertex lies
      beyond the far plane (depth greater than 1), where nothing is drawn. */
  datatype Projected = Projected(x: int, y: int, beyond: bool)

  /** One call of the 2D layer, on world-space vertices. */
  datatype Command<V> =
    | Dot(v: V, color: u32)
    | Segment(a: V, b: V, color: u32)
    | Fill(a: V, b: V, c: V, fill: u32)

  /** What one command does to a frame under a projection. */
  ghost function Exec<V>(f: seq<byte>, cmd: Command<V>, project: V -> Projected): (r: seq<byte>)
    requires |f| == FRAME_LEN
    ensures |r| == FRAME_LEN
  {
    match cmd
    case Dot(v, color) =>
      var p := project(v);
      if p.beyond then f else Plot(f, p.x, p.y, color)
    case Segment(a, b, color) =>
      var p, q := project(a), project(b);
      if p.beyond || q.beyond then f else LineEffect(f, p.x, p.y, q.x, q.y, color)
    case Fill(a, b, c, fill) =>
      var p, q, r := project(a), project(b), project(c);
      if p.beyond || q.beyond || r.beyond then f else TriangleEffect(f, p.x, p.y, q.x, q.y, r.x, r.y, fill)
  }

  /** What a list of commands does, executed first to last. */
  ghost function ExecAll<V>(f: seq<byte>, cmds: seq<Command<V>>, project: V -> Projected): (r: seq<byte>)
    requires |f| == FRAME_LEN
    ensures |r| == FRAME_LEN
    decreases |cmds|
  {
    if |cmds| == 0 then f
    else Exec(ExecAll(f, cmds[..|cmds| - 1], project), cmds[|cmds| - 1], project)
  }

  /** The fan triangles (0, k+1, k+2) of a polygon, when the fill colour is not 0. */
  function Fan<V>(polygon: seq<V>, fill: u32): seq<Command<V>>
    requires |polygon| >= 2
  {
    if fill == 0 then []
    else seq(|polygon| - 2, k requires 0 <= k < |polygon| - 2 => Fill(polygon[0], polygon[k + 1], polygon[k + 2], fill))
  }

  /** The closed outline of a polygon: edge k joins vertex k to vertex (k+1) mod n. */
  function Outline<V>(polygon: seq<V>, color: u32): seq<Command<V>> {
    seq(|polygon|, k requires 0 <= k < |polygon| => Segment(polygon[k], polygon[(k + 1) % |polygon|], color))
  }

  /** The commands of `draw_polygon_3d`, selected by the number of vertices. */
  function PolygonPlan<V>(polygon: seq<V>, color: u32, fill: u32): seq<Command<V>> {
    if |polygon| == 1 then [Dot(polygon[0], color)]
    else if |polygon| == 2 then [Segment(polygon[0], polygon[1], color)]
    else if |polygon| == 0 then []
    else Fan(polygon, fill) + Outline(polygon, color)
  }

  /** The commands of `draw_mesh_3d`: the polygons' commands, polygon after polygon. */
  function MeshPlan<V>(mesh: seq<seq<V>>, color: u32, fill: u32): seq<Command<V>>
    decreases |mesh|
  {
    if |mesh| == 0 then []
    else MeshPlan(mesh[..|mesh| - 1], color, fill) + PolygonPlan(mesh[|mesh| - 1], color, fill)
  }

  /** Executing one more command. */
  lemma ExecAllNext<V>(f: seq<byte>, cmds: seq<Command<V>>, cmd: Command<V>, project: V -> Projected)
    requires |f| == FRAME_LEN
    ensures ExecAll(f, cmds + [cmd], project) == Exec(ExecAll(f, cmds, project), cmd, project)
  {
    assert (cmds + [cmd])[..|cmds|] == cmds;
  }

  /** Executing two lists one after the other executes their concatenation. */
  lemma {:induction false} ExecAllAppend<V>(f: seq<byte>, a: seq<Command<V>>, b: seq<Command<V>>, project: V -> Projected)
    requires |f| == FRAME_LEN
    ensures ExecAll(f, a + b, project) == ExecAll(ExecAll(f, a, project), b, project)
    decreases |b|
  {
    if |b| == 0 {
      assert a + b == a;
    } else {
      var pre := b[..|b| - 1];
      assert a + b == (a + pre) + [b[|b| - 1]];
      ExecAllNext(f, a + pre, b[|b| - 1], project);
      ExecAllAppend(f, a, pre, project);
    }
  }

  /** `draw_point_3d`. */
  method DrawPoint3D<V>(frame: array<byte>, v: V, project: V -> Projected, color: u32)
    requires frame.Length == FRAME_LEN
    modifies frame
    ensures frame[..] == Exec(old(frame[..]), Dot(v, color), project)
  {
    var p := project(v);
    if p.beyond {
      return;
    }
    DrawPixel(frame, p.x, p.y, color);
  }

  /** `draw_line_3d`. */
  method DrawLine3D<V>(frame: array<byte>, v0: V, v1: V, project: V -> Projected, color: u32)
    requires frame.Length == FRAME_LEN
    modifies frame
    ensures frame[..] == Exec(old(frame[..]), Segment(v0, v1, color), project)
  {
    var p0, p1 := project(v0), project(v1);
    if p0.beyond || p1.beyond {
      return;
    }
    DrawLine(frame, p0.x, p0.y, p1.x, p1.y, color);
  }

  /** `draw_triangle_fill_3d`. */
  method DrawTriangleFill3D<V>(frame: array<byte>, v0: V, v1: V, v2: V, project: V -> Projected, fill: u32)
    requires frame.Length == FRAME_LEN
    modifies frame
    ensures frame[..] == Exec(old(frame[..]), Fill(v0, v1, v2, fill), project)
  {
    var p0, p1, p2 := project(v0), project(v1), project(v2);
    if p0.beyond || p1.beyond || p2.beyond {
      return;
    }
    DrawTriangleFill(frame, p0.x, p0.y, p1.x, p1.y, p2.x, p2.y, fill);
  }

  /** `draw_polygon_3d`: a point, a line, or the fan triangles followed by the outline. */
  method DrawPolygon3D<V>(frame: array<byte>, polygon: seq<V>, project: V -> Projected, color: u32, fill: u32)
    requires frame.Length == FRAME_LEN
    modifies frame
    ensures frame[..] == ExecAll(old(frame[..]), PolygonPlan(polygon, color, fill), project)
  {
    ghost var f0 := frame[..];
    if |polygon| == 1 {
      DrawPoint3D(frame, polygon[0], project, color);
      assert [Dot(polygon[0], color)][..0] == [];
    } else if |polygon| == 2 {
      DrawLine3D(frame, polygon[0], polygon[1], project, color);
      assert [Segment(polygon[0], polygon[1], color)][..0] == [];
    } else if |polygon| != 0 {
      DrawFan(frame, polygon, project, fill);
      DrawOutline(frame, polygon, project, color);
      ExecAllAppend(f0, Fan(polygon, fill), Outline(polygon, color), project);
    }
  }

  /** The first loop of `draw_polygon_3d`: the fan triangles, skipped for fill colour 0. */
  method DrawFan<V>(frame: array<byte>, polygon: seq<V>, project: V -> Projected, fill: u32)
    requires frame.Length == FRAME_LEN && |polygon| >= 2
    modifies frame
    ensures frame[..] == ExecAll(old(frame[..]), Fan(polygon, fill), project)
  {
    if fill == 0 {
      return;
    }
    ghost var f0 := frame[..];
    ghost var fan := Fan(polygon, fill);
    for i := 2 to |polygon|
      invariant frame[..] == ExecAll(f0, fan[..i - 2], project)
    {
      ghost var cmd := Fill(polygon[0], polygon[i - 1], polygon[i], fill);
      FanNext(polygon, fill, i);
      ExecAllNext(f0, fan[..i - 2], cmd, project);
      DrawTriangleFill3D(frame, polygon[0], polygon[i - 1], polygon[i], project, fill);
    }
    assert fan[..|fan|] == fan;
  }

  lemma FanNext<V>(polygon: seq<V>, fill: u32, i: int)
    requires fill != 0 && 2 <= i < |polygon|
    ensures Fan(polygon, fill)[..i - 1] == Fan(polygon, fill)[..i - 2] + [Fill(polygon[0], polygon[i - 1], polygon[i], fill)]
  {
    var fan := Fan(polygon, fill);
    assert fan[i - 2] == Fill(polygon[0], polygon[i - 1], polygon[i], fill);
  }

  /** The second loop of `draw_polygon_3d`: every edge, the last one closing the polygon. */
  method DrawOutline<V>(frame: array<byte>, polygon: seq<V>, project: V -> Projected, color: u32)
    requires frame.Length == FRAME_LEN
    modifies frame
    ensures frame[..] == ExecAll(old(frame[..]), Outline(polygon, color), project)
  {
    ghost var f0 := frame[..];
    ghost var outline := Outline(polygon, color);
    for i := 0 to |polygon|
      invariant frame[..] == ExecAll(f0, outline[..i], project)
    {
      ghost var cmd := Segment(polygon[i], polygon[(i + 1) % |polygon|], color);
      assert outline[..i + 1] == outline[..i] + [cmd];
      ExecAllNext(f0, outline[..i], cmd, project);
      DrawLine3D(frame, polygon[i], polygon[(i + 1) % |polygon|], project, color);
    }
    assert outline[..|outline|] == outline;
  }

  /** `draw_mesh_3d`: every polygon in order. */
  method DrawMesh3D<V>(frame: array<byte>, mesh: seq<seq<V>>, project: V -> Projected, color: u32, fill: u32)
    requires frame.Length == FRAME_LEN
    modifies frame
    ensures frame[..] == ExecAll(old(frame[..]), MeshPlan(mesh, color, fill), project)
  {
    ghost var f0 := frame[..];
    for i := 0 to |mesh|
      invariant frame[..] == ExecAll(f0, MeshPlan(mesh[..i], color, fill), project)
    {
      assert mesh[..i + 1][..i] == mesh[..i];
      ExecAllAppend(f0, MeshPlan(mesh[..i], color, fill), PolygonPlan(mesh[i], color, fill), project);
      DrawPolygon3D(frame, mesh[i], project, color, fill);
    }
    assert mesh[..|mesh|] == mesh;
  }

  /** The outline is a closed cycle: each edge starts where the previous one ended,
      and the last edge returns to the first vertex. Edge k starts at vertex k. */
  lemma OutlineClosed<V>(polygon: seq<V>, color: u32)
    requires |polygon| >= 1
    ensures var o := Outline(polygon, color);
      && |o| == |polygon|
      && (forall k :: 0 <= k < |o| ==> o[k].Segment? && o[k].a == polygon[k] && o[k].color == color)
      && (forall k :: 0 < k < |o| ==> o[k].a == o[k - 1].b)
      && o[|o| - 1].b == o[0].a
  {
    var o, n := Outline(polygon, color), |polygon|;
    forall k | 0 <= k < n ensures o[k].b == polygon[if k + 1 < n then k + 1 else 0] {
      NextIndex(k, n);
    }
  }

  lemma NextIndex(k: int, n: int)
    requires 0 <= k < n
    ensures (k + 1) % n == if k + 1 < n then k + 1 else 0
  {
    if k + 1 == n {
      DivUnique(k + 1, n, 1);
    } else {
      DivUnique(k + 1, n, 0);
    }
  }

  /** The fan: n - 2 triangles (0, k+1, k+2) for a non-zero fill colour, all sharing vertex 0, each
      sharing an edge with the next, from (0, 1, 2) to (0, n-2, n-1); none for fill 0. */
  lemma FanTriangles<V>(polygon: seq<V>, fill: u32)
    requires |polygon| >= 3
    ensures var t, n := Fan(polygon, fill), |polygon|;
      && |t| == (if fill == 0 then 0 else n - 2)
      && (forall k :: 0 <= k < |t| ==> t[k].Fill? && t[k].a == polygon[0] && t[k].fill == fill)
      && (forall k :: 0 <= k < |t| ==> t[k].b == polygon[k + 1] && t[k].c == polygon[k + 2])
      && (forall k :: 0 < k < |t| ==> t[k].b == t[k - 1].c)
      && (fill != 0 ==> t[0].b == polygon[1] && t[0].c == polygon[2])
      && (fill != 0 ==> t[|t| - 1].b == polygon[n - 2] && t[|t| - 1].c == polygon[n - 1])
  {
    var t := Fan(polygon, fill);
    forall k | 0 <= k < |t| ensures t[k] == Fill(polygon[0], polygon[k + 1], polygon[k + 2], fill) {
    }
  }

  /** What `draw_polygon_3d` chooses by size: nothing for no vertex, a point for one, a
      line for two, and for more the fan (if any) strictly before the outline. */
  lemma PolygonPlanShape<V>(polygon: seq<V>, color: u32, fill: u32)
    ensures var plan, n := PolygonPlan(polygon, color, fill), |polygon|;
      && (n == 0 ==> plan == [])
      && (n == 1 ==> plan == [Dot(polygon[0], color)])
      && (n == 2 ==> plan == [Segment(polygon[0], polygon[1], color)])
      && (n >= 3 ==> |plan| == (if fill == 0 then n else 2 * n - 2))
      && (forall i, j :: 0 <= i < j < |plan| && plan[j].Fill? ==> plan[i].Fill?)
      && (forall i :: 0 <= i < |plan| && !plan[i].Fill? ==> plan[i].color == color)
  {
    if |polygon| >= 3 {
      var plan, fan, outline := PolygonPlan(polygon, color, fill), Fan(polygon, fill), Outline(polygon, color);
      FanTriangles(polygon, fill);
      OutlineClosed(polygon, color);
      assert plan == fan + outline;
      forall i | 0 <= i < |plan| ensures plan[i].Fill? <==> i < |fan| {
        if i < |fan| {
          assert plan[i] == fan[i];
        } else {
          assert plan[i] == outline[i - |fan|];
        }
      }
    }
  }

  /** A command that the far-plane test rejects. */
  predicate Rejected<V>(cmd: Command<V>, project: V -> Projected) {
    match cmd
    case Dot(v, _) => project(v).beyond
    case Segment(a, b, _) => project(a).beyond || project(b).beyond
    case Fill(a, b, c, _) => project(a).beyond || project(b).beyond || project(c).beyond
  }

  /** Rejected commands leave the frame untouched. */
  lemma {:induction false} ExecAllRejected<V>(f: seq<byte>, cmds: seq<Command<V>>, project: V -> Projected)
    requires |f| == FRAME_LEN
    requires forall k :: 0 <= k < |cmds| ==> Rejected(cmds[k], project)
    ensures ExecAll(f, cmds, project) == f
    decreases |cmds|
  {
    if |cmds| > 0 {
      ExecAllRejected(f, cmds[..|cmds| - 1], project);
    }
  }

  /** A polygon lying entirely beyond the far plane draws nothing. */
  lemma PolygonBeyond<V>(f: seq<byte>, polygon: seq<V>, project: V -> Projected, color: u32, fill: u32)
    requires |f| == FRAME_LEN
    requires forall k :: 0 <= k < |polygon| ==> project(polygon[k]).beyond
    ensures ExecAll(f, PolygonPlan(polygon, color, fill), project) == f
  {
    var plan := PolygonPlan(polygon, color, fill);
    if |polygon| >= 3 {
      var fan, outline := Fan(polygon, fill), Outline(polygon, color);
      FanTriangles(polygon, fill);
      OutlineClosed(polygon, color);
      ExecAllRejected(f, fan, project);
      ExecAllRejected(f, outline, project);
      ExecAllAppend(f, fan, outline, project);
    } else {
      ExecAllRejected(f, plan, project);
    }
  }

  /** Drawing a mesh with one more polygon draws that polygon over the rest. */
  lemma MeshNext<V>(f: seq<byte>, mesh: seq<seq<V>>, polygon: seq<V>, project: V -> Projected, color: u32, fill: u32)
    requires |f| == FRAME_LEN
    ensures ExecAll(f, MeshPlan(mesh + [polygon], color, fill), project)
      == ExecAll(ExecAll(f, MeshPlan(mesh, color, fill), project), PolygonPlan(polygon, color, fill), project)
  {
    assert (mesh + [polygon])[..|mesh|] == mesh;
    ExecAllAppend(f, MeshPlan(mesh, color, fill), PolygonPlan(polygon, color, fill), project);
  }
}
