/** The triangle record the loader produces and the rasterizer consumes. */
module Triangle {
  import opened Numeric
  import opened Point2d
  import opened Point3d

  /** Vertices, texture coordinates and normals of the three corners, and
      the screen-space bounding box the raster loop fills in. */
  datatype Triangle3D = Triangle3D(
    a: Point3D, b: Point3D, c: Point3D,
    ta: Point2D, tb: Point2D, tc: Point2D,
    na: Point3D, nb: Point3D, nc: Point3D,
    bbStartX: u32, bbStartY: u32, bbEndX: u32, bbEndY: u32)
}
