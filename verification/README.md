# rusterizer, modelled in Dafny

rusterizer is a CPU triangle rasterizer written in Rust. It loads a Wavefront
OBJ mesh and a texture, and projects each triangle with a free-look camera.
It splits the screen into tiles, one buffer per worker thread. In each tile
it walks the triangles' bounding boxes in 2x2 pixel quads, runs a depth test
and a Lambert-style shading step, and then copies the tiles back into the
screen buffer. It can also write the screen out as a BMP file.

This project models the sequential, deterministic core of that program:

- the tiler arithmetic of `Rect` and `compute_subdivisions`;
- the framebuffer `ScreenSpace`:
  - bounds-checked pixels;
  - unchecked depth entries;
  - `clear`;
  - the bytes of `write_bmp`, in the Windows BMP format: a 14-byte file header, a 40-byte info header, then 24-bit bottom-up rows padded to 4 bytes;
- the per-frame integer logic of the render loop:
  - even-rounded bounding boxes;
  - the quads a tile walks;
  - the strict depth-test mask with its early exit;
  - the row-by-row merge of tiles into the screen;
- the edge-function inside test with barycentric weights, and the perspective projection of a vertex;
- the 2D and 3D vector algebra;
- the yaw/pitch basis and the world/local conversions;
- the OBJ face-vertex parser, the line dispatch of `parse_obj`, and fan triangulation;
- the row flip of texture loading and the texel lookup of `sample`;
- the camera step, as a pure function of an input record;
- `shade_pixel` and its lane-by-lane quad version.

Modelling choices:

- `f32` values are modelled as `real`.
- `sin`, `cos`, `tan`, `sqrt` and `pi` are fields of a `Numeric.Math` record passed as a parameter. The laws some lemmas need (`sin² + cos² = 1`, `sqrt(x)² = x`) are stated as ghost predicates in their preconditions.
- `u8`, `u32` and `usize` are subset types of `int`.
- The saturating `as u32` / `as u8` casts, `& !1` and `f32::clamp` are written out in `Numeric`, `Raster` and `Camera`.
- Most panics become preconditions. Two panics of `parse_obj` become error results instead, as listed under "Left out". Division by zero becomes an `Option` result.

Modules:

- `Wrappers`: `Option` and `Result`.
- `Numeric`: casts, rounding and the `Math` record.
- `Squares`: sign facts about products.
- `Rectangle`, `Point2d`, `Point3d`, `Transform`, `Geometry`, `Screen`, `Texture`, `Triangle`, `Obj` and `Camera`: one module per source file.
- `Bmp`: the byte image of `write_bmp`.
- `Raster`: bounding boxes and the quad loop.
- `Merge`: tile buffers and the merge.
- `Shading`: `shade_pixel` and `shade_quad_test`.

## Model

| member | source | states |
|---|---|---|
| Rectangle.Width | src/rectangle.rs:11-13 | the width added to `min_x` gives `max_x`; requires `min_x <= max_x`, because the `u32` subtraction underflows otherwise |
| Rectangle.Height | src/rectangle.rs:14-16 | the height added to `min_y` gives `max_y`; requires `min_y <= max_y` |
| Rectangle.ComputeSubdivisions | src/rectangle.rs:20-28 | the result `d` is the least depth with `2^d >= n`: `2^d >= n`, and `d == 0` or `2^(d-1) < n` |
| Rectangle.SplitDepthOfZeroAndOne | src/rectangle.rs:21-26 | for `n = 0` and `n = 1` the split depth is 0 |
| Rectangle.SplitDepthMonotone | src/rectangle.rs:20-28 | more pieces never need a smaller split depth |
| Rectangle.SplitDepthUnique | src/rectangle.rs:20-28 | the two bounds determine the split depth uniquely, so they fix the result of `compute_subdivisions` |
| Rectangle.SplitDepthOfPowerOfTwo | src/rectangle.rs:20-28 | the split depth of `2^k` is `k` |
| Rectangle.Pow2Monotone | src/rectangle.rs:24-27 | the doubling counter only grows with the depth |
| Rectangle.Pow2Add | src/rectangle.rs:24-27 | `2^(a+b) = 2^a * 2^b` for the doubling counter |
| Rectangle.Pow2Is2To63 | src/rectangle.rs:20-28 | 63 doublings reach `2^63`, the last `usize` power of two the counter can hold |
| Point2d.Add | src/point2d.rs:9-14 | subtracting `b` from `a + b` gives back `a` |
| Point2d.Sub | src/point2d.rs:16-21 | adding `b` back to `a - b` componentwise gives `a` |
| Point2d.Mul | src/point2d.rs:23-28 | scaling by 1 is the identity and scaling by 0 gives the zero vector |
| Point2d.Div | src/point2d.rs:30-35 | multiplying the quotient's components by a non-zero `s` gives back `a` |
| Point2d.DivUndoesMul | src/point2d.rs:23-35 | dividing by a non-zero `s` undoes scaling by `s` |
| Point2d.Dot2 | src/point2d.rs:37-39 | `dot2` is 0 when either argument is the origin |
| Point2d.Perp | src/point2d.rs:41-43 | the counter-clockwise turn `(x, y) -> (-y, x)` undoes `perp` |
| Point2d.Dot2Symmetric | src/point2d.rs:37-39 | `dot2` is symmetric |
| Point2d.PerpOrthogonal | src/point2d.rs:37-43 | `dot2(v, perp(v)) = 0` |
| Point2d.PerpTwiceNegates | src/point2d.rs:41-43 | `perp(perp(v)) = -v` |
| Point2d.PerpPreservesDot | src/point2d.rs:37-43 | `perp` preserves the dot product |
| Point3d.Add | src/point3d.rs:10-15 | subtracting `b` from `a + b` gives back `a` |
| Point3d.AddScalar | src/point3d.rs:17-22 | `p + s` is `p` plus the vector `(s, s, s)` |
| Point3d.AddAssign | src/point3d.rs:25-31 | `a += b` leaves `a` equal to `a + b` |
| Point3d.Sub | src/point3d.rs:33-38 | adding `b` back to `a - b` componentwise gives `a` |
| Point3d.SubAssign | src/point3d.rs:41-47 | `a -= b` leaves `a` equal to `a - b` |
| Point3d.Mul | src/point3d.rs:49-54 | scaling by 1 is the identity and scaling by 0 gives the zero vector |
| Point3d.Div | src/point3d.rs:56-61 | multiplying the quotient's components by a non-zero `s` gives back `a` |
| Point3d.ScalarDiv | src/point3d.rs:63-68 | each component of `s / p` times the matching component of `p` gives `s` |
| Point3d.DivUndoesMul | src/point3d.rs:49-61 | dividing by a non-zero `s` undoes scaling by `s` |
| Point3d.Dot3 | src/point3d.rs:71-73 | `dot3` is 0 when either argument is the zero vector |
| Point3d.Dot3Symmetric | src/point3d.rs:71-73 | `dot3` is symmetric |
| Point3d.Dot3SelfNonNegative | src/point3d.rs:71-73 | `dot3(v, v) >= 0`, and it is positive for every non-zero `v` |
| Point3d.Dot3Scale | src/point3d.rs:49-54 | scaling one argument scales `dot3` by the same factor |
| Point3d.Dot3Additive | src/point3d.rs:10-15 | `dot3(r, u + v) == dot3(r, u) + dot3(r, v)` |
| Point3d.Dot3ScaleRight | src/point3d.rs:49-54 | scaling the second argument scales `dot3` by the same factor |
| Point3d.Normalize | src/point3d.rs:76-79 | `normalize` returns the zero vector unchanged |
| Point3d.NormalizeUnit | src/point3d.rs:76-79 | under the square-root law, `normalize` of a non-zero vector has `dot3(n, n) = 1` |
| Transform.TransformVector | src/transform.rs:9-11 | the zero vector maps to zero, and the x, y and z unit vectors map to the columns `ihat`, `jhat` and `khat` |
| Transform.TransformVectorCombinesColumns | src/transform.rs:9-11 | `transform_vector` is the sum of the basis columns weighted by the coordinates |
| Transform.UpdateTransform | src/transform.rs:14-18 | yaw, pitch and position become exactly the arguments |
| Transform.GetBasisVectors | src/transform.rs:19-30 | the right vector `ihat` has y-component 0 for every yaw and pitch |
| Transform.BasisClosedForm | src/transform.rs:19-30 | the basis written out as products of the sines and cosines of yaw and pitch |
| Transform.GetInverseBasisVectors | src/transform.rs:32-38 | the inverse basis, transposed, is the basis |
| Transform.ToWorldPoint | src/transform.rs:40-43 | `to_world_point(p)` is `transform_direction(p)` plus the position |
| Transform.ToLocalPoint | src/transform.rs:45-48 | each local coordinate is the offset from the position dotted with the matching basis vector, so the position is the local origin |
| Transform.TransformDirection | src/transform.rs:50-53 | the zero direction stays zero, and the x, y and z axes turn into the basis vectors `ihat`, `jhat` and `khat` |
| Transform.TransformVectorRows | src/transform.rs:9-11 | each component of `transform_vector` is a row of the basis matrix dotted with the vector |
| Transform.TransformVectorAdditive | src/transform.rs:9-11 | `transform_vector` distributes over vector addition |
| Transform.TransformVectorHomogeneous | src/transform.rs:9-11 | `transform_vector` commutes with scaling |
| Transform.DirectionIgnoresPosition | src/transform.rs:50-53 | `transform_direction` does not depend on the position |
| Transform.ZeroAnglesIdentity | src/transform.rs:19-30 | with yaw = pitch = 0, the basis is the identity |
| Transform.ZeroAnglesTranslate | src/transform.rs:40-43 | with yaw = pitch = 0, `to_world_point` is a pure translation |
| Transform.IdentityFixes | src/transform.rs:9-11 | the identity basis fixes every vector |
| Transform.BasisOrthonormal | src/transform.rs:19-30 | when `sin² + cos² = 1` holds for both angles, the basis columns are unit length and pairwise orthogonal |
| Transform.DotTransformVector | src/transform.rs:9-11 | a dot product with a transformed vector, as a combination of dot products with the columns |
| Transform.TransposeUndoes | src/transform.rs:32-38 | the transposed orthonormal basis undoes `transform_vector` |
| Transform.LocalInvertsWorld | src/transform.rs:40-48 | when `sin² + cos² = 1` holds for both angles, `to_local_point(to_world_point(p)) = p` |
| Geometry.SignedTriangleArea | src/geometry.rs:5-9 | `dot2(p - t1, perp(t2 - t1)) / 2` is half the 2D cross product `(p - t1) x (t2 - t1)`, written out in coordinates |
| Geometry.AreaAntisymmetric | src/geometry.rs:5-9 | swapping the edge's endpoints negates `signed_triangle_area` |
| Geometry.AreaCyclic | src/geometry.rs:5-9 | the signed area is invariant under rotation of its three points |
| Geometry.AreaZeroAtEndpoints | src/geometry.rs:5-9 | the area is 0 when `p` is either endpoint of the edge |
| Geometry.SubAreasSum | src/geometry.rs:12-16 | the three sub-areas sum to the area of the triangle, whatever `p` is |
| Geometry.PointInTriangle | src/geometry.rs:11-22 | inside iff the triangle's area is positive and all three sub-areas are non-negative; weights are absent exactly for a zero-area triangle, and otherwise sum to 1 |
| Geometry.WeightsReconstructPoint | src/geometry.rs:12-20 | the weights are barycentric coordinates: they recombine the corners into `p` |
| Geometry.InsideWeightsBounded | src/geometry.rs:15-21 | for an inside point every weight lies in [0, 1] |
| Geometry.DegenerateContainsNothing | src/geometry.rs:15-21 | a zero-area triangle reports no point inside |
| Geometry.CombinationSubAreas | src/geometry.rs:12-14 | the sub-area opposite each corner is that corner's barycentric coordinate times the whole area |
| Geometry.InsideIffCoordinatesNonNegative | src/geometry.rs:11-22 | for a triangle of positive area, a point is inside iff its barycentric coordinates are all non-negative, and the reported weights are exactly those coordinates |
| Geometry.VertexToScreen | src/geometry.rs:24-31 | the output z is the world z, and `x - res.x/2` times `2 tan(fov/2) z` equals `world.x * res.y` (likewise for y); the result is absent exactly when the source divides by zero |
| Geometry.Unproject | src/geometry.rs:24-31 | the inverse projection keeps the depth |
| Geometry.UnprojectInvertsProjection | src/geometry.rs:24-31 | unprojecting a projected vertex gives back its world position |
| Geometry.UnprojectSolves | src/geometry.rs:26-30 | any point satisfying the projection equations unprojects to the world point |
| Screen.PixelNumberBounds | src/screen.rs:28 | an in-bounds `(x, y)` has pixel number `y * width + x` below `width * height` |
| Screen.PixelNumberInjective | src/screen.rs:28 | distinct in-bounds coordinates have distinct pixel numbers |
| Screen.New | src/screen.rs:16-25 | buffers of `4 * w * h` zero bytes and `w * h` infinite depths, the given size, an all-zero rect |
| Screen.GetPixel | src/screen.rs:34-38 | `Some` iff `x < width` and `y < height`, and then the four bytes at `4 * (y * width + x)` |
| Screen.SetPixel | src/screen.rs:26-33 | out of bounds the screen is unchanged; in bounds `get_pixel` reads back the written colour; every byte of every other pixel, and the depth buffer, are unchanged |
| Screen.SetPixelFrame | src/screen.rs:26-38 | setting one pixel leaves every other pixel's `get_pixel` unchanged |
| Screen.SetDepth | src/screen.rs:39-46 | `get_depth` reads back the value; every other depth entry and the colour bytes are unchanged; requires only that the index is within the buffer, not that `x < width` |
| Screen.ClearBytesOfPixel | src/screen.rs:48-50 | the fill pattern puts r, g, b, a at the four bytes of each pixel |
| Screen.Clear | src/screen.rs:47-52 | every 4-byte group becomes r, g, b, a (a little-endian `u32` fill), every depth becomes +inf, and the sizes are unchanged |
| Screen.ClearedPixel | src/screen.rs:47-52 | after `clear`, every in-bounds pixel reads back as the fill colour |
| Bmp.RowStride | src/screen.rs:56 | the stride is a multiple of 4 within 3 bytes above `3 * width` |
| Bmp.RowStrideLeast | src/screen.rs:56 | no smaller multiple of 4 holds `3 * width` bytes |
| Bmp.LE32 | src/screen.rs:61-70 | `to_le_bytes` gives four bytes that decode back to the `u32`, least significant first |
| Bmp.FileHeader | src/screen.rs:60-63 | the 14-byte file header: "BM", the file size `54 + stride * height`, four reserved zero bytes, data offset 54 |
| Bmp.InfoHeader | src/screen.rs:64-74 | the 40-byte info header: its size 40, width and height, 1 plane, 24 bits, no compression, the pixel-array size, then zeros |
| Bmp.Header | src/screen.rs:57-74 | the header is 54 bytes: "BM"; the file size `54 + stride * height`; data offset 54; info size 40; width and height; 1 plane; 24 bits; the pixel-array size |
| Bmp.Row | src/screen.rs:75-85 | each stored row has exactly `row_stride` bytes |
| Bmp.RowsFrom | src/screen.rs:76-85 | the rows from `y` up to the top take `(height - y) * row_stride` bytes |
| Bmp.RowsFromPrefix | src/screen.rs:76-85 | the bytes written for the upper rows are a prefix of the bytes written for all rows |
| Bmp.RowInPixelArray | src/screen.rs:76-85 | screen row `y` is stored `height - 1 - y` strides into the pixel array |
| Bmp.RowInFile | src/screen.rs:76-85 | each byte of screen row `y` in the file: blue, green, red of the pixels in order, alpha dropped, zero padding after the last pixel, stored bottom-up after the headers |
| Bmp.RowPixelStep | src/screen.rs:77-83 | each pixel adds its blue, green and red bytes to the row |
| Bmp.RowPadding | src/screen.rs:75-84 | a row ends in `row_stride - 3 * width` zero bytes |
| Bmp.EncodeRowPixels | src/screen.rs:77-83 | the inner loop emits exactly the pixel bytes of row `y` |
| Bmp.WriteBmp | src/screen.rs:53-87 | the bytes written are the headers followed by the rows from `height - 1` down to 0, and their number equals the file-size field |
| Texture.RowStartNext | src/texture.rs:17-18 | each row starts `4 * width` bytes after the previous one |
| Texture.RowStartOrdered | src/texture.rs:17-18 | earlier rows end no later than later rows start |
| Texture.Load | src/texture.rs:11-22 | the buffer has `4 * width * height` bytes, and its row `y` is row `height - 1 - y` of the decoded image |
| Texture.TexelCoord | src/texture.rs:24-27 | the coordinate is below the size for every real input; for an axis of at most `2^32` texels it is the nearest texel to `fract(f) * (size - 1)`, within half a texel with ties going up, and 0 for every negative `f` |
| Texture.NearestTexelUnique | src/texture.rs:24-27 | at most one texel is nearest, so the nearest-texel condition fixes the coordinate |
| Texture.TexelIndex | src/texture.rs:28 | the byte offset of an in-range texel leaves room for its four bytes |
| Texture.Sample | src/texture.rs:23-35 | `sample` returns the four bytes of the texel `(x, y)` nearest to `(fract(u) * (width - 1), fract(v) * (height - 1))`, at byte offset `(y * width + x) * 4` |
| Texture.FractPeriodic | src/texture.rs:24-25 | for non-negative inputs, `fract` ignores whole turns |
| Texture.TexelCoordPeriodic | src/texture.rs:24-27 | for non-negative inputs, adding a whole number keeps the texel coordinate |
| Texture.SampleRepeats | src/texture.rs:23-35 | for `u, v >= 0`, `sample(u + k, v + l) = sample(u, v)` for all natural `k` and `l` |
| Obj.Split | src/obj.rs:70 | `split('/')` gives at least one piece, none containing the separator |
| Obj.JoinSplit | src/obj.rs:70 | joining the pieces with the separator gives back the string |
| Obj.SplitCons | src/obj.rs:70 | a separator splits off the piece before it |
| Obj.SplitNoSeparator | src/obj.rs:70 | a string without the separator is its only piece |
| Obj.TakeToken | src/obj.rs:26 | a token is the longest whitespace-free prefix |
| Obj.SplitWhitespace | src/obj.rs:26 | every `split_whitespace` token is non-empty and free of whitespace |
| Obj.NonWhitespaceAppend | src/obj.rs:26 | dropping the whitespace of a concatenation drops it from each part |
| Obj.NonWhitespaceOfToken | src/obj.rs:26 | a whitespace-free string loses nothing |
| Obj.TokensCoverText | src/obj.rs:26 | the tokens, run together, are exactly the line's non-whitespace characters |
| Obj.ParseUsize | src/obj.rs:71 | a string is accepted iff it is a non-empty run of decimal digits, optionally after one leading `+`, whose value is below 2^64; an accepted string gives that decimal value (leading zeros allowed), and a leading `+` does not change it |
| Obj.ShowNat | src/obj.rs:71 | the decimal form is a non-empty digit string |
| Obj.ShowNatValue | src/obj.rs:71 | the digit string's value is the number |
| Obj.ParseShowNat | src/obj.rs:71 | parsing the decimal form of a `usize` gives it back |
| Obj.ParseIndexOfShown | src/obj.rs:71 | the decimal form of `n + 1` parses to the 0-based index `n` |
| Obj.ParseOptionalIndexOfShown | src/obj.rs:72-80 | a piece holding the decimal form of `n + 1` parses to `Some(n)`, and an empty piece to `None` |
| Obj.ParseIndex | src/obj.rs:71-79 | succeeds iff the text parses to a number of at least 1, and the result is that number minus 1 |
| Obj.ParseOptionalIndex | src/obj.rs:72-80 | an absent or empty piece gives `None`; a non-empty piece succeeds iff it is a 1-based index, and then gives `Some` of that index minus 1 |
| Obj.ParseFaceVertex | src/obj.rs:69-82 | a corner token succeeds iff its first piece is a 1-based index and its second and third pieces, where present and non-empty, are too; the corner is then those indices minus 1 |
| Obj.ParseFormatFaceVertex | src/obj.rs:69-82 | `a`, `a/b`, `a//c` and `a/b/c` parse back to the 0-based corner they were formatted from, with `None` for each missing part |
| Obj.NoSlashInNumber | src/obj.rs:70 | a decimal number contains no '/' |
| Obj.ParseOnePiece | src/obj.rs:69-82 | `"a"` parses to `(a-1, None, None)` |
| Obj.SplitThree | src/obj.rs:70 | three slash-free pieces joined by '/' split back into those pieces |
| Obj.ParseTwoPieces | src/obj.rs:69-82 | `"a/b"` parses to `(a-1, Some(b-1), None)` |
| Obj.FormatThreePieces | src/obj.rs:69-82 | the formatted `a/b/c` and `a//c` forms are three slash-separated pieces |
| Obj.ParseThreePieces | src/obj.rs:69-82 | `"a/b/c"` and `"a//c"` parse to their corner |
| Obj.ParseFaceVertexOfPieces | src/obj.rs:69-82 | a token whose pieces parse to the three indices parses to that corner |
| Obj.ParseFaceVertexRejects | src/obj.rs:71 | a corner whose position piece is empty, is `0`, or holds a character other than a leading `+` or a decimal digit is an error |
| Obj.ParseFaceVertexRejectsOptional | src/obj.rs:72-80 | a corner whose non-empty texture-coordinate or normal piece is not a 1-based index is an error |
| Obj.ParseFaceParts | src/obj.rs:54-60 | a face has three index lists as long as its corner tokens, holding each corner's indices with a missing vt or vn stored as 0; it fails only if some corner fails |
| Obj.Coordinate | src/obj.rs:33-46 | a missing coordinate token is an error, and a parsed one is the float's value |
| Obj.ParseLine | src/obj.rs:26-63 | a line succeeds exactly when it is blank, a comment, of an unknown keyword, a `v` or `vn` line whose first three coordinates parse, a `vt` line whose first two parse, or an `f` line whose every corner token parses; blank, comment and unknown lines change nothing; `v`, `vt`, `vn` and `f` each append to their own list the point, texture coordinate, normal or face read from the line's tokens, and leave the other lists alone; a face has one corner per token after `f` |
| Obj.ParseLineAppends | src/obj.rs:31-62 | an accepted line appends exactly its own entry to the list its keyword names, and nothing to the others |
| Obj.ParseLines | src/obj.rs:24-64 | the loop succeeds exactly when every line is accepted on its own, and then each list holds the entries of the lines, in file order, after the existing ones |
| Obj.ParseObj | src/obj.rs:15-67 | `parse_obj` succeeds exactly when every line is accepted, and then returns the points of the `v` lines, the texture coordinates of the `vt` lines, the normals of the `vn` lines and the faces of the `f` lines, each in file order |
| Obj.ParseLinesCounts | src/obj.rs:24-66 | a successful parse has one position per `v` line, one texture coordinate per `vt` line, one normal per `vn` line and one face per `f` line, and never changes earlier entries |
| Obj.IgnoredLinesKeepData | src/obj.rs:27-62 | a file of only blank, comment and unknown-keyword lines leaves all four lists unchanged |
| Obj.Fan | src/obj.rs:91-95 | a face with `n >= 3` corners yields `n - 2` triangles; a face with fewer yields none |
| Obj.FanElement | src/obj.rs:95-108 | triangle `i - 1` of a fan uses corners 0, `i` and `i + 1`, for positions, texture coordinates and normals alike |
| Obj.FanOf | src/obj.rs:91-109 | the inner loop builds exactly the face's fan |
| Obj.FansSnoc | src/obj.rs:87-110 | one more face appends its fan to the output |
| Obj.FanTriangulate | src/obj.rs:84-113 | the output is the fans of the faces, in face order |
| Obj.FansCount | src/obj.rs:84-113 | the output holds the sum of `max(0, n - 2)` triangles |
| Obj.FansPrefix | src/obj.rs:84-113 | the fans of the first faces are a prefix of the output |
| Obj.TriangleCountPrefix | src/obj.rs:84-113 | the triangles before a face, plus its own, fit in the total |
| Obj.FanPosition | src/obj.rs:84-113 | triangle `t` of face `fi` sits at the number of triangles of the earlier faces plus `t` |
| Obj.FanCorner | src/obj.rs:95-108 | that output triangle uses corners 0, `t + 1` and `t + 2` of face `fi` |
| Camera.Clamp | src/camera.rs:19-31 | `f32::clamp`: the result lies in `[lo, hi]`, equals `v` inside it and the nearer bound outside |
| Camera.Look | src/camera.rs:15-20 | button down: yaw decreases by `dx * sensitivity`, and the pitch becomes `clamp(pitch + dy * sensitivity, -85°, 85°)`: kept when inside the range, the nearer limit outside it; button up: the transform is untouched, so an out-of-range pitch stays unclamped; the position never changes |
| Camera.AddIf | src/camera.rs:23-26 | the point moves by `dir` exactly when the key is pressed |
| Camera.SubIf | src/camera.rs:24-25 | the point moves by `-dir` exactly when the key is pressed |
| Camera.CameraUpdate | src/camera.rs:12-32 | fov becomes `clamp(fov - wheel/100, 1°, 170°)`, so it always lies in [1°, 170°]; speed and sensitivity never change; yaw and pitch are those of the look step |
| Camera.CameraUpdateMoves | src/camera.rs:21-28 | the position moves along the basis computed after this frame's look step |
| Camera.Move | src/camera.rs:23-28 | the six key checks, in their order, move the point by its net displacement: W/S by ± the forward vector and A/D by ± the right vector, unscaled by the speed; Space lowers y by the speed and LeftShift raises it |
| Camera.NetMoveByNetKeys | src/camera.rs:23-28 | two inputs whose opposite pairs have the same net direction move the camera alike |
| Camera.OppositeKeysCancel | src/camera.rs:23-28 | pressing both keys of W/S, A/D or Space/LeftShift moves as if neither were pressed |
| Camera.BasisIgnoresPosition | src/camera.rs:21 | the basis depends on the angles only |
| Raster.Min3 | src/main.rs:201-202 | the minimum is one of the three values and below each |
| Raster.Max3 | src/main.rs:203-204 | the maximum is one of the three values and above each |
| Raster.ClampToScreen | src/main.rs:206-209 | `(v as u32).clamp(0, size - 1)`: negative values go to 0, values past the screen to `size - 1`, the rest are kept |
| Raster.BoxStart | src/main.rs:206-223 | the box start is even, and at most 1 below the clamped floor |
| Raster.BoxEnd | src/main.rs:208-225 | the box end is even, and at most 1 above the clamped ceiling; it never exceeds the screen size |
| Raster.BoxOrdered | src/main.rs:206-225 | the box start is at most the box end |
| Raster.ScreenTriangle | src/main.rs:201-226 | the projected corners and the texture and normal attributes are carried over; the box bounds are even, ordered, and within the screen |
| Raster.BoxCoversCentres | src/main.rs:206-225 | on an even-sized screen, a pixel whose centre lies within the vertex extent is inside the even-rounded box |
| Raster.OddSizeMissesLastPixel | src/main.rs:208-224 | on a 3-pixel axis, a centre at 2.5 inside the extent is cut off by the box end 2; this is why the screen size must be even |
| Raster.InsideWithinExtent | src/main.rs:201-204 | a point the inside test accepts lies within the vertices' extent |
| Raster.ConvexWithin | src/main.rs:201-204 | a convex combination lies between the minimum and the maximum |
| Raster.BoundingBoxCoversTriangle | src/main.rs:201-226 | on an even-sized screen, every pixel whose centre is inside the triangle lies in its bounding box |
| Raster.StepRange | src/main.rs:243-244 | `(lo..hi).step_by(2)` has `ceil((hi - lo) / 2)` elements, `lo + 2i`, all below `hi` |
| Raster.StepRangeMembers | src/main.rs:243-244 | `v` is visited iff `lo <= v < hi` and `v - lo` is even |
| Raster.QuadRows | src/main.rs:243 | the rows visited are exactly those in both the triangle's box and the tile, at an even distance from the first such row |
| Raster.QuadColumns | src/main.rs:244 | the columns visited are exactly those in both the triangle's box and the tile, at an even distance from the first such column |
| Raster.QuadOriginInTile | src/main.rs:243-262 | every visited quad origin lies in both the triangle's box and the tile, so its tile-local coordinates neither underflow nor reach the tile size |
| Raster.QuadBlockInTile | src/main.rs:243-247 | the whole 2x2 block at a visited origin lies in the box and in the tile |
| Raster.QuadAxisInBounds | src/main.rs:243-244 | with all four bounds even, the second pixel of a visited pair is still below both ends |
| Raster.SamplePoints | src/main.rs:245-248 | lane `i` samples the centre of pixel `(x + i % 2, y + i / 2)`: lanes 0 and 1 are the top row |
| Raster.PassMask | src/main.rs:263 | lane `i` of the mask is set iff the lane is inside the triangle and its depth is strictly below the stored depth |
| Raster.PassMaskLanes | src/main.rs:263 | a lane passes iff it is inside and strictly nearer than the stored depth; on a tie the stored depth wins, so the earlier triangle keeps the pixel |
| Raster.QuadStep | src/main.rs:262-281 | a quad with no passing lane leaves the tile unchanged; otherwise depth and colour are written under the same mask |
| Raster.RasterRow | src/main.rs:244-282 | the inner loop over one quad row keeps the tile's rectangle and size |
| Raster.RasterRows | src/main.rs:243-283 | the two nested loops keep the tile's rectangle and size |
| Raster.RasterRowOutsideUnchanged | src/main.rs:244-283 | a quad row with no inside lane writes nothing |
| Raster.RasterOutsideUnchanged | src/main.rs:243-284 | a triangle with no inside lane in the tile writes nothing |
| Raster.RasterTriangle | src/main.rs:243-284 | the loop visits the rows and columns of the box clipped to the tile, in order, applying the quad step to each |
| Merge.TileBuffer | src/main.rs:121-132 | for a rectangle whose byte count `4 * width * height` stays below 2^32, so that the `u32` product does not overflow, the tile's buffer matches the rectangle's size, holds zero bytes and infinite depths, and keeps the rectangle |
| Merge.Splice | src/main.rs:309-310 | `copy_from_slice` replaces exactly the bytes of the target range with the source's and keeps every other byte |
| Merge.RowSpan | src/main.rs:306 | the copied row length fits both the tile row and the screen width |
| Merge.RowFits | src/main.rs:302-310 | the copied range lies within the buffer |
| Merge.MergeRow | src/main.rs:296-310 | a merge step keeps the screen's size, rect and depth buffer |
| Merge.MergeRowByteInside | src/main.rs:302-310 | a screen byte under the copied part of tile row `y` takes the tile's byte |
| Merge.RowBytesBelongToRow | src/main.rs:302-306 | the bytes of a screen pixel lie in the copied range iff the pixel is in that row and span |
| Merge.MergeRowByteOutside | src/main.rs:297-310 | every other screen byte is untouched, including all rows past the screen height |
| Merge.MergeRowPixel | src/main.rs:296-310 | per pixel: under the copied part of the row it is the tile's pixel, otherwise it is unchanged |
| Merge.SamePixel | src/screen.rs:34-38 | equal bytes at the two pixel offsets give equal pixels |
| Merge.MergeTile | src/main.rs:293-311 | a screen pixel under the tile takes the tile's pixel and every other pixel keeps its value; tile pixels past the screen's edges are dropped |
| Merge.MergeTiles | src/main.rs:291-312 | each pixel is that of the last tile covering it, or the screen's own pixel when none does |
| Merge.MergedPixelUncovered | src/main.rs:291-312 | a pixel no tile covers is unchanged |
| Merge.MergedPixelSingleCover | src/main.rs:291-312 | a pixel that exactly one tile covers takes that tile's pixel |
| Shading.ShadePixel | src/main.rs:46-51 | alpha passes through unchanged |
| Shading.NormalizedLength | src/point3d.rs:76-79 | a normalised vector has length 1, or is zero |
| Shading.DotOfShortVectors | src/main.rs:49 | two vectors of length at most 1 have a dot product in [-1, 1] |
| Shading.Dot3Expansion | src/main.rs:49 | `\|u ± v\|²` expands to `\|u\|² + \|v\|² ± 2 u·v` |
| Shading.Intensity | src/main.rs:47-49 | a zero normal or a zero light direction gives the middle intensity 0.5, because `normalize` leaves the zero vector unchanged |
| Shading.IntensityBounded | src/main.rs:47-49 | the light intensity lies in [0, 1] |
| Shading.ShadeDarkens | src/main.rs:46-51 | shading never brightens a colour channel |
| Shading.FacingLightKeepsColor | src/main.rs:46-51 | a surface facing straight into the light keeps its colour |
| Shading.FacingAwayIsBlack | src/main.rs:46-51 | a surface facing straight away from the light turns black, alpha aside |
| Shading.NormalizeNeg | src/point3d.rs:76-79 | normalising the opposite vector gives the opposite unit vector |
| Shading.ShadeQuadTest | src/main.rs:53-82 | lane `i` of `shade_quad_test` is `shade_pixel` applied to lane `i`'s bytes and normal |
| Numeric.Trunc | src/main.rs:206-209 | truncation toward zero, within 1 of the input, as `as u32` applies it before saturating |
| Numeric.Ceil | src/main.rs:208-209 | `ceil` is the least integer at or above the input |
| Numeric.Round | src/texture.rs:26-27 | `round` is within 1/2 of the input, with halves going away from zero |
| Numeric.Fract | src/texture.rs:24-25 | `fract` lies in (-1, 1), has the input's sign, and differs from it by an integer |
| Numeric.SaturateU32 | src/main.rs:206-209 | `as u32` saturation: below 0 gives 0, above `u32::MAX` gives `u32::MAX`, the rest are kept |
| Numeric.CastU32 | src/main.rs:206-209 | `as u32`: inputs below 1 give 0, inputs from `2^32` up give `u32::MAX`, and in between the result is the floor of the input |
| Numeric.CastU8 | src/main.rs:50 | `as u8`: inputs below 1 give 0, inputs from 255 up give 255, and the floor in between |
| Numeric.ClearLowBit | src/main.rs:222-225 | `& !1` gives the even number equal to or just below the input |

## Left out

- Window, input polling and presentation through raylib, timing, and plotting (main.rs outside the lines cited above): these are I/O. The camera step takes the polled input as a `Camera.Input` record.
- rayon parallelism: tiles are rastered and merged sequentially.
- Tile disjointness and coverage cannot be stated: the `subdivide` routine that produces the rectangles is not part of this model. `Merge.MergeTiles` is therefore stated for tiles that may overlap, with the later tile winning.
- The SIMD helpers that main.rs calls are not part of this model. They are abstract: beyond their types, nothing is assumed about them except what is noted here.
  - `point_in_triangle_simd`, `inv_triangle_area`, `dot3_simd`, `normalize_simd` and `sample_quad`: the per-quad inside mask, depth and colour are abstract functions of the quad origin (`Raster.Fragments`);
  - `get_depth_quad`, `set_depth_quad` and `set_pixel_quad`: abstract functions of the tile (`Raster.QuadOps`), assumed to return only new buffers, so the tile's rect and size are kept.
- `Point2Dx4` and `Point3Dx4` have no model beyond the four-lane `Raster.Quad` and the sequences of `Shading.ShadeQuadTest`.
- `shade_quad` (the SIMD version): it needs `normalize_simd` and `dot3_simd`, which are not part of this model. Its scalar counterpart `shade_pixel` and the lane test `shade_quad_test` are modelled.
- Perspective-correct depth and attribute interpolation (main.rs:260-275): it assumes an inverted vertex depth that geometry.rs's 4-argument `vertex_to_screen` does not produce, and main.rs calls a 5-argument `vertex_to_screen` that does not exist. The raster loop therefore takes projected corners and fragment values as inputs.
- `depth_to_u8`: unused, and depends on `exp`.
- File I/O:
  - `parse_obj` takes the file's lines;
  - `Texture.Load` takes the decoded image bytes;
  - `Bmp.WriteBmp` returns the bytes instead of writing them.
- Float parsing (`f32::from_str`): passed to `Obj.ParseLine` as the parameter `parseFloat`.
- IEEE `f32` behaviour: rounding error, NaN and infinities are not modelled. Values are reals, and the transcendental functions are the fields of `Numeric.Math`.
- Division by zero is modelled as absence rather than an infinite or NaN result:
  - `Geometry.VertexToScreen` returns `None` when `tan(fov/2)` or the world depth is 0;
  - `Geometry.PointInTriangle` reports no weights for a zero-area triangle;
  - `Point3d.Div`, `Point2d.Div` and `Point3d.ScalarDiv` require non-zero divisors.
- `Screen.WellFormed` requires `4 * width * height <= 2^32`, so that the source's `u32` index arithmetic cannot wrap. Screens beyond that size, on which the source would overflow, are not modelled.
- Merge.MergeRow: requires the tile to start on the screen (`min_x <= screen.width`), where the source's `u32` subtraction would underflow. The one corner where `(screen_y * width + min_x) * 4` reaches exactly `2^32` with an empty copy is not modelled as a `u32` overflow.
- Rectangle.ComputeSubdivisions: requires `n <= 2^63`. Beyond that the `usize` counter would overflow before reaching `n`.
- Texture.Load: requires `4 * width * height < 2^32`, the `u32` capacity the source computes.
- Screen.Clear: the bytes r, g, b, a of each pixel assume a little-endian host. `clear` builds the fill word with `u32::from_le_bytes` and writes it through `cast_slice_mut`, so on a big-endian host the bytes would land in the reverse order.
- Screen.GetDepth: has no contract of its own beyond the index precondition. Its behaviour is stated through `Screen.SetDepth`'s read-after-write.
- Texture.SampleRepeats: stated for non-negative coordinates only. For negative coordinates `fract` keeps the sign, and the sample does not repeat in the same way.
- Shading.ShadePixel: its own contract states only that alpha passes through. The colour channels are described by `Shading.ShadeDarkens`, `Shading.FacingLightKeepsColor` and `Shading.FacingAwayIsBlack`, not by one closed form.
- Camera.CameraUpdate: the position is described by `Camera.CameraUpdateMoves` together with the contract of `Camera.Move`, not in its own contract.
- Obj.ParseLine: a `v`, `vt` or `vn` line with too few tokens panics in the source, because `tokens[i]` is out of bounds (obj.rs:33-46). The model returns the error `MissingToken` instead.
- Obj.ParseIndex: an index of 0 makes `parse::<usize>()? - 1` underflow (obj.rs:71, 74 and 79). That panics in a debug build. In a release build it wraps, and the out-of-range index then panics when the fan triangulation indexes the lists (obj.rs:96-106). The model returns the error `ZeroIndex` instead.
- The bounding boxes of the triangles built by `fan_triangulate_faces` are set to 0; obj.rs:108 leaves those fields out.
