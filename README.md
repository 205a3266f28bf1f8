# exo rasterizer and flight rules, in Dafny

A model of two parts of the exo space game.

The first part is its integer software rasterizer (`src/graphics.rs`). Drawing happens in a flat RGBA frame of 320 × 240 pixels, four bytes each. The top screen row is stored first, so the visual y axis points up. The pieces are:

- a pixel write;
- clearing the frame;
- Bresenham lines;
- scan-line triangle fill;
- rectangle outline and fill;
- bitmap sprites and text;
- the way polygons and meshes are broken into points, lines and fan triangles once their vertices are projected.

The second part is the ship and world update rules of `src/game.rs`, over real numbers:

- brake assist filling idle opposing thruster pairs;
- boost and its decay;
- the semi-implicit Euler step;
- particle aging and expiry;
- the dust cloud's retain-and-refill rule.

Modules:

- `Frame` (frame.dfy): the frame layout, the pixel write `Plot` and the central specification `Paint(f, s, c)`. `Paint` colours every on-screen pixel of the region `s` with colour `c` and leaves every other byte alone. Every single-colour primitive is specified as `Paint` of a region.
- `Lines` (lines.dfy): `bresenham` as a loop with its decision variable. It is proved equal to a closed form, in which the minor offset at step i is i·|d_minor|/d_major rounded half down.
- `Raster` (raster.dfy): `draw_pixel`, `clear`, `draw_line`, `draw_triangle_fill` (edge collection, the per-row map and the row fills), `draw_rectangle` and `draw_rectangle_fill`. Each works in place on an `array<byte>`.
- `Glyphs` (glyphs.dfy): `draw_sprite` and `draw_text`.
- `Mesh` (mesh.dfy): `draw_point_3d`, `draw_line_3d`, `draw_triangle_fill_3d`, `draw_polygon_3d` and `draw_mesh_3d`. Projection is a parameter `project: V -> Projected`. It gives integer screen coordinates and whether the vertex is beyond the far plane. The methods are proved to run a list of draw commands, `PolygonPlan` or `MeshPlan`, whose shape is proved separately.
- `Flight` (ship.dfy): the `Ship` class and `update_ship_movement`.
- `World` (world.dfy): the `Game` class with its particles and dust. It also has `Vec::retain` as `Filter` and `Retain`.

## Model

| member | source | states |
|---|---|---|
| Raster.DrawPixel | src/graphics.rs:19-28 | the frame becomes `Plot` of the old frame: unchanged off screen, else the four colour bytes at the flipped index |
| Frame.PlotBytes | src/graphics.rs:19-28 | off screen nothing changes; on screen bytes i..i+3, with i = ((HEIGHT-1-y)·WIDTH + x)·4 inside the frame, get colour>>24, >>16, >>8 and the low byte, and no other byte changes |
| Frame.PixelAtIndex | src/graphics.rs:23 | a byte belongs to pixel (x, y) exactly when it is one of the four bytes from that pixel's index, and the index lies inside the frame |
| Frame.ChannelsPack | src/graphics.rs:24-27 | the four bytes written reassemble into the colour, red first |
| Frame.PlotIsPaint | src/graphics.rs:19-28 | a pixel write is `Paint` of the one-pixel region |
| Frame.PlotOnPaint | src/graphics.rs:19-28 | writing a pixel over a painted region in the same colour paints the region plus that pixel |
| Raster.Clear | src/graphics.rs:11-17 | every byte of the frame becomes the matching channel of the colour |
| Lines.Bresenham | src/graphics.rs:30-82 | the points equal the closed form `Line`, whichever of the two branches and swaps runs |
| Lines.WalkX | src/graphics.rs:37-55 | the x-major loop with its decision variable yields exactly `XMajor` |
| Lines.WalkY | src/graphics.rs:61-79 | the y-major loop yields exactly `YMajor` |
| Lines.DecisionStep | src/graphics.rs:49-54 | each update of d keeps it tied to the error of the current minor offset |
| Lines.LineLength | src/graphics.rs:32-79 | a line has max(abs(x1-x0), abs(y1-y0)) + 1 points |
| Lines.LineEndpoints | src/graphics.rs:32-79 | the first and last points are the two endpoints, starting from the one with the smaller major coordinate |
| Lines.LineSteps | src/graphics.rs:44-54 | consecutive points advance by 1 on the major axis and by 0 or the sign of the minor delta on the other |
| Lines.OffsetBounds | src/graphics.rs:44-54 | the minor offset stays between 0 and the minor delta |
| Lines.LineInBox | src/graphics.rs:30-82 | every point lies in the endpoints' bounding box |
| Lines.LineNearIdeal | src/graphics.rs:44-78 | every point is at most half a pixel from the ideal line, measured along the minor axis (2·|cross product| ≤ major span) |
| Lines.LineSymmetric | src/graphics.rs:32-60 | swapping the endpoints gives the same points in the same order |
| Lines.LineSinglePoint | src/graphics.rs:30-82 | equal endpoints give just that point |
| Raster.DrawLine | src/graphics.rs:84-92 | nothing changes if an endpoint is off screen; otherwise exactly the Bresenham points are painted |
| Raster.LineOnScreen | src/graphics.rs:85-91 | with both endpoints on screen, every point drawn is on screen |
| Raster.CollectEdges | src/graphics.rs:98-101 | the collected points are the three Bresenham edges in order |
| Raster.GroupRows | src/graphics.rs:103-110 | the row map maps each row an edge touches to that row's x values, each list non-empty |
| Raster.RowMapNext | src/graphics.rs:104-110 | adding a point appends its x to its row's list, or starts the list |
| Raster.RowXs | src/graphics.rs:103-110 | x is listed for row y exactly when (x, y) is an edge point |
| Raster.SeqMin | src/graphics.rs:112 | the minimum is an element and at most every element |
| Raster.SeqMax | src/graphics.rs:112 | the maximum is an element and at least every element |
| Raster.FillRows | src/graphics.rs:111-115 | filling the rows in any order paints each row from its minimum to its maximum x |
| Raster.FillSpan | src/graphics.rs:112-114 | one row span from lo to hi inclusive is painted |
| Raster.DrawTriangleFill | src/graphics.rs:94-116 | nothing changes if a vertex is off screen; otherwise the row spans of the edge map are painted |
| Raster.SpanBetweenEdges | src/graphics.rs:111-115 | a pixel is filled exactly when it lies between two edge points of its row; rows no edge touches stay as they were |
| Raster.TriangleOnScreen | src/graphics.rs:95-115 | with all vertices on screen, every filled pixel is on screen |
| Raster.OutlineColumn | src/graphics.rs:130-136 | one column of the outline loop paints that column's border pixels |
| Raster.FillColumn | src/graphics.rs:151-155 | one column of the fill loop paints that column of the box |
| Raster.DrawRectangle | src/graphics.rs:118-137 | the border of the normalised box, clamped to [-1, WIDTH] × [-1, HEIGHT], is painted |
| Raster.DrawRectangleFill | src/graphics.rs:139-156 | the normalised, clamped box is painted |
| Raster.RectangleCornerOrder | src/graphics.rs:118-156 | both rectangles give the same frame for either corner order |
| Raster.RectangleFillExact | src/graphics.rs:139-156 | the fill paints exactly the on-screen pixels of the closed box between the corners |
| Raster.RectangleOutlineExact | src/graphics.rs:118-137 | clamping never moves the outline on screen: it paints the border of the unclamped box |
| Raster.RectangleOutlineKeepsInterior | src/graphics.rs:130-136 | bytes of pixels outside the clamped box or strictly inside it are unchanged |
| Glyphs.DrawSprite | src/graphics.rs:158-173 | the frame becomes the sprite region painted: a pixel is set when its cell of the bottom-up flipped bitmap is 1 |
| Glyphs.DrawBlock | src/graphics.rs:165-169 | the scale × scale block of one cell is painted |
| Glyphs.DrawBlockRow | src/graphics.rs:166-168 | one row of a block is painted |
| Glyphs.DoneCell | src/graphics.rs:164-169 | a cell with a 1 in the flipped row adds its block to what is drawn; a 0 cell adds nothing |
| Glyphs.DoneAll | src/graphics.rs:162-172 | after all rows and columns, what is drawn is the whole sprite region |
| Glyphs.SpriteFlip | src/graphics.rs:162-168 | the pixel at (x + scale·j + dj, y + scale·(len-1-r) + di) is set exactly when sprite[r][j] is 1 |
| Glyphs.SpriteBounds | src/graphics.rs:162-168 | a sprite only paints at or right of x, and from y up to y + scale·rows |
| Glyphs.SpriteNonPositive | src/graphics.rs:159-161 | a negative or zero scale draws nothing |
| Glyphs.DrawText | src/graphics.rs:175-188 | the frame becomes every known glyph painted at its pen position |
| Glyphs.DrawChar | src/graphics.rs:179-186 | one byte of text moves the pen as `Advance` says and adds its glyph to what is drawn |
| Glyphs.DrawGlyph | src/graphics.rs:180 | one glyph is drawn on top of the earlier glyphs |
| Glyphs.DrawnStep | src/graphics.rs:180 | drawing one more sprite in the same colour paints the union of regions |
| Glyphs.CursorLine | src/graphics.rs:181-185 | the pen's y is minus (the number of line breaks × offset·scale) |
| Glyphs.CursorColumn | src/graphics.rs:179-182 | without a line break the pen's x is (the number of known bytes) × offset·scale |
| Glyphs.CursorAppend | src/graphics.rs:176-187 | on joined text, the line offsets add, and after a break the column restarts from the second part's column |
| Glyphs.CursorPrefix | src/graphics.rs:176-187 | the pen after n bytes depends only on the first n bytes |
| Glyphs.PlacementsPrefix | src/graphics.rs:176-187 | the glyphs placed in the first n bytes depend only on those bytes |
| Glyphs.KnownCursor | src/graphics.rs:179 | bytes outside the font do not move the pen: dropping them gives the same pen |
| Glyphs.KnownPlacements | src/graphics.rs:179-181 | dropping the bytes outside the font places the same glyphs at the same positions |
| Glyphs.KnownGlyphs | src/graphics.rs:179 | the bytes kept are exactly the known ones, counted by `Glyphs` |
| Mesh.DrawPoint3D | src/graphics.rs:190-196 | a vertex beyond the far plane draws nothing; otherwise its projected pixel is written |
| Mesh.DrawLine3D | src/graphics.rs:198-205 | a segment with an endpoint beyond the far plane draws nothing; otherwise a 2D line is drawn |
| Mesh.DrawTriangleFill3D | src/graphics.rs:207-215 | a triangle with a vertex beyond the far plane draws nothing; otherwise a 2D triangle is filled |
| Mesh.DrawPolygon3D | src/graphics.rs:217-235 | the frame is the result of running `PolygonPlan` |
| Mesh.DrawFan | src/graphics.rs:223-230 | the fill loop runs the fan triangles in order, and nothing runs when the fill is 0 |
| Mesh.DrawOutline | src/graphics.rs:231-233 | the edge loop runs the outline segments in order |
| Mesh.DrawMesh3D | src/graphics.rs:237-241 | the frame is the result of running `MeshPlan`, polygon after polygon |
| Mesh.FanTriangles | src/graphics.rs:223-229 | when fill is not 0 there are n-2 triangles (0, k+1, k+2), each sharing an edge with the next, from (0, 1, 2) to (0, n-2, n-1); otherwise none |
| Mesh.OutlineClosed | src/graphics.rs:231-233 | there are n segments from vertex k, each starting where the previous ended, the last closing back to vertex 0 |
| Mesh.PolygonPlanShape | src/graphics.rs:217-235 | 0 vertices give nothing, 1 a point and 2 a line; n ≥ 3 give n or 2n-2 commands, all fills before all lines, lines in the line colour |
| Mesh.ExecAllAppend | src/graphics.rs:237-241 | running two command lists one after the other equals running their concatenation |
| Mesh.MeshNext | src/graphics.rs:238-240 | one more polygon runs its plan after the earlier polygons' plans |
| Mesh.ExecAllRejected | src/graphics.rs:192-193 | commands that the far-plane test rejects leave the frame unchanged |
| Mesh.PolygonBeyond | src/graphics.rs:217-235 | a polygon wholly beyond the far plane draws nothing |
| Flight.Clamp | src/game.rs:283-296 | `f32::clamp`: the result lies in [lo, hi] and is v whenever v does |
| Flight.PairAssisted | src/game.rs:283-296 | a pair in use is kept; an idle pair fires at most one thruster within [0, its limit], with net thrust equal to the demand clamped to the two limits |
| Flight.AssistPair | src/game.rs:283-284 | the two statements for one pair, run in order, give `PairAssisted` |
| Flight.BrakeThrust | src/game.rs:281-297 | with the brake off nothing changes. With it on, each of the six pairs satisfies `Assists` with its own demand and limits: 200·Euler for rotation with limit 5, −10·local velocity for translation with limit 20, and front limit 40 |
| Flight.Ship.BrakeAssist | src/game.rs:281-297 | the thrusts become `BrakeThrust` of the old ones, and no other field changes |
| Flight.Decayed | src/game.rs:309 | the boost never goes below 0, is boost − 800·dt when that is positive, and never grows when both boost and dt are at least 0 |
| Flight.EulerStep | src/game.rs:316-317 | p + (v + a·dt)·dt = p + v·dt + a·dt² |
| Flight.Ship.UpdateMovement | src/game.rs:280-317 | brake assist, then steering from the assisted pairs, front thrust plus the old boost, boost decayed, acceleration from the net thrust, v' = v + a·dt and p' = p + v'·dt = p + v·dt + a·dt² |
| Flight.Ship.constructor | src/game.rs:80-89 | a new ship is at rest at the origin with every thruster off, no boost and the brake off |
| World.Filter | src/game.rs:129 | what `retain` keeps is no longer than the input, and every element kept is accepted |
| World.FilterMember | src/game.rs:129 | an element is kept exactly when it was there and is accepted |
| World.FilterOrder | src/game.rs:129 | exactly the accepted positions are kept, each once, in their original order |
| World.FilterAppend | src/game.rs:129 | retaining from a concatenation retains from each part |
| World.FilterAll | src/game.rs:129 | nothing is dropped when everything is accepted |
| World.Retain | src/game.rs:129 | the loop over the elements computes `Filter` |
| World.AgedAll | src/game.rs:120-127 | every particle keeps its position and has exactly dt less lifetime; its colour is kept while at least 1 is left, and below that it is the fade of the remaining lifetime, floored at 0 |
| World.ParticlesAfter | src/game.rs:120-128 | at most the old number of particles remain, all with lifetime left. A particle survives exactly when it had more than dt left, and a surviving fading particle has exactly the fade of its lifetime |
| World.ParticlesAppend | src/game.rs:121-129 | aging and expiry act particle by particle, so a list can be split |
| World.Game.UpdateParticles | src/game.rs:121-129 | the particle list becomes the aged particles with lifetime > 0, in order, and the dust is untouched |
| World.DustNear | src/game.rs:235-247 | when the offsets are no longer than 80, every mote after the refill is within 80 of the center |
| World.Game.UpdateDust | src/game.rs:230-248 | the dust becomes the near motes, in order, followed by exactly as many new motes as bring the count to 200, so the count is max(200, motes kept) |
| World.Game.constructor | src/game.rs:105-107 | a new game has no particles and 200 dust motes spawned around the origin |

## Left out

- Projection (`transform_world_to_screen`, src/transform.rs) is not part of this model. It is the parameter `project`, and it includes the truncating f32 → i32 cast of the screen coordinates and the `z > 1.0` far-plane test.
- `draw_object`, `transform_mesh`, `color_to_float` and `float_to_color`: floating-point matrix and colour arithmetic. The particle colour at a brightness is the parameter `fade`.
- The quaternion and Euler arithmetic of `update_ship_movement` is left out. The inputs `euler` (the Euler angles of the inverted angular velocity), `local` (the velocity in ship coordinates) and `orient` (rotation by the updated ship rotation) stand in for it. The angular velocity, the rotation and `hull.model` are not modelled.
- The random dust offsets are left out; they are the parameter `spawn`, which also covers the `first` flag (it only changes the radius range). The recolouring loop at the end of `update_dust` (float brightness) is left out too.
- World.Near: compares the squared distance with 80², where the source compares the length with 80. The two agree for real numbers, but the f32 rounding of the square root is not modelled.
- Flight.Ship.UpdateMovement: f32 rounding, NaN and infinities are not modelled; all arithmetic is on reals. The same holds in the World module: particle lifetimes, dust positions and distances are reals.
- Flight.Thrusts: the source's twelve-entry enum map is stored as six opposing pairs. Brake assist and the net-thrust differences read a pair together; the boost is added to Front alone, which is `axial.other`.
- Raster.DrawPixel and all drawing: i32 overflow of coordinates and indices is not modelled (coordinates are unbounded integers). It matters when a coordinate, an index, a product such as `scale * j` in `draw_sprite`, or the pen offset that `draw_text` adds up byte by byte leaves the i32 range: there the source panics (debug build) or wraps (release build), and the model goes on with the exact value.
- Glyphs.DrawSprite: for a scale of 0 or more, requires every sprite row i to be as long as row len-1-i, which the source needs to avoid an index panic (it loops over `sprite[i]` but reads `sprite[len-1-i]`). A panicking call is not modelled.
- Glyphs.DrawText: for a scale of 0 or more, requires the same row shape of every glyph the text uses (`GlyphsShaped`), for the same reason.
- Raster.DrawTriangleFill: the row order of the source's HashMap is a parameter of `FillRows`, proved not to matter.
- Exhaust particles (`add_exhaust_particles`), asteroids, stars, the camera, the HUD, `Game::draw`, and src/main.rs (window, input and the wall clock) are outside the modelled core. The sprite and mesh tables are parameters.
- The call sites in src/game.rs and src/main.rs use other signatures (a depth buffer, `Vec3` corners) than src/graphics.rs. Each file is modelled as written, and the contract between them is not modelled.
