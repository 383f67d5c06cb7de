/** The yaw/pitch/position orientation of the mesh and of the camera,
    its basis vectors and the world/local conversions built on them. */
module Transform {
  import opened Numeric
  import opened Point3d

  datatype Transform = Transform(yaw: real, pitch: real, position: Point3D)

  /** The images of the x, y and z unit vectors: the columns of a 3x3 matrix. */
  datatype Basis = Basis(ihat: Point3D, jhat: Point3D, khat: Point3D)

  const Identity: Basis := Basis(Point3D(1.0, 0.0, 0.0), Point3D(0.0, 1.0, 0.0), Point3D(0.0, 0.0, 1.0))

  /** `transform_vector`: the matrix with columns `ihat, jhat, khat` applied to `v`. */
  function TransformVector(b: Basis, v: Point3D): (r: Point3D)
    ensures v == Zero ==> r == Zero
    ensures v == Point3D(1.0, 0.0, 0.0) ==> r == b.ihat
    ensures v == Point3D(0.0, 1.0, 0.0) ==> r == b.jhat
    ensures v == Point3D(0.0, 0.0, 1.0) ==> r == b.khat
  {
    Point3D(b.ihat.x * v.x + b.jhat.x * v.y + b.khat.x * v.z,
            b.ihat.y * v.x + b.jhat.y * v.y + b.khat.y * v.z,
            b.ihat.z * v.x + b.jhat.z * v.y + b.khat.z * v.z)
  }

  /** The transformed vector is the combination of the columns weighted by the coordinates. */
  lemma TransformVectorCombinesColumns(b: Basis, v: Point3D)
    ensures TransformVector(b, v) == Add(Add(Mul(b.ihat, v.x), Mul(b.jhat, v.y)), Mul(b.khat, v.z))
  {
  }

  /** The matrix transpose: rows become columns. */
  function Transpose(b: Basis): (t: Basis)
    ensures t.ihat == Point3D(b.ihat.x, b.jhat.x, b.khat.x)
  {
    Basis(Point3D(b.ihat.x, b.jhat.x, b.khat.x),
          Point3D(b.ihat.y, b.jhat.y, b.khat.y),
          Point3D(b.ihat.z, b.jhat.z, b.khat.z))
  }

  /** Columns of unit length that are pairwise orthogonal. */
  ghost predicate Orthonormal(b: Basis) {
    && Dot3(b.ihat, b.ihat) == 1.0 && Dot3(b.jhat, b.jhat) == 1.0 && Dot3(b.khat, b.khat) == 1.0
    && Dot3(b.ihat, b.jhat) == 0.0 && Dot3(b.ihat, b.khat) == 0.0 && Dot3(b.jhat, b.khat) == 0.0
  }

  /** `update_transform`: every field is replaced, with no clamping of the angles. */
  function UpdateTransform(t: Transform, newYaw: real, newPitch: real, newPosition: Point3D): (r: Transform)
    ensures r.yaw == newYaw && r.pitch == newPitch && r.position == newPosition
  {
    t.(yaw := newYaw, pitch := newPitch, position := newPosition)
  }

  /** `get_basis_vectors`: the pitch rotation about x, composed after the yaw rotation about y. */
  function GetBasisVectors(t: Transform, m: Math): (b: Basis)
    ensures b.ihat.y == 0.0
  {
    var ihatYaw := Point3D(m.cos(t.yaw), 0.0, m.sin(t.yaw));
    var jhatYaw := Point3D(0.0, 1.0, 0.0);
    var khatYaw := Point3D(-m.sin(t.yaw), 0.0, m.cos(t.yaw));
    var ihatPitch := Point3D(1.0, 0.0, 0.0);
    var jhatPitch := Point3D(0.0, m.cos(t.pitch), -m.sin(t.pitch));
    var khatPitch := Point3D(0.0, m.sin(t.pitch), m.cos(t.pitch));
    var yawBasis := Basis(ihatYaw, jhatYaw, khatYaw);
    Basis(TransformVector(yawBasis, ihatPitch),
          TransformVector(yawBasis, jhatPitch),
          TransformVector(yawBasis, khatPitch))
  }

  /** `get_inverse_basis_vectors`: transposing it back yields the basis. */
  function GetInverseBasisVectors(t: Transform, m: Math): (inv: Basis)
    ensures Transpose(inv) == GetBasisVectors(t, m)
  {
    var b := GetBasisVectors(t, m);
    Basis(Point3D(b.ihat.x, b.jhat.x, b.khat.x),
          Point3D(b.ihat.y, b.jhat.y, b.khat.y),
          Point3D(b.ihat.z, b.jhat.z, b.khat.z))
  }

  /** `transform_direction`: rotation only. The unit axes turn into the
      basis vectors: z into the forward vector, x into the right vector. */
  function TransformDirection(t: Transform, dir: Point3D, m: Math): (d: Point3D)
    ensures dir == Zero ==> d == Zero
    ensures dir == Point3D(1.0, 0.0, 0.0) ==> d == GetBasisVectors(t, m).ihat
    ensures dir == Point3D(0.0, 1.0, 0.0) ==> d == GetBasisVectors(t, m).jhat
    ensures dir == Point3D(0.0, 0.0, 1.0) ==> d == GetBasisVectors(t, m).khat
  {
    TransformVector(GetBasisVectors(t, m), dir)
  }

  /** `to_world_point`: rotation, then translation by the position. */
  function ToWorldPoint(t: Transform, p: Point3D, m: Math): (w: Point3D)
    ensures w == Add(TransformDirection(t, p, m), t.position)
  {
    Add(TransformVector(GetBasisVectors(t, m), p), t.position)
  }

  /** `to_local_point`: undo the translation, then apply the inverse basis.
      Each local coordinate is the offset from the position projected on
      the matching basis vector, so the position itself is the local origin. */
  function ToLocalPoint(t: Transform, w: Point3D, m: Math): (l: Point3D)
    ensures l.x == Dot3(GetBasisVectors(t, m).ihat, Sub(w, t.position))
    ensures l.y == Dot3(GetBasisVectors(t, m).jhat, Sub(w, t.position))
    ensures l.z == Dot3(GetBasisVectors(t, m).khat, Sub(w, t.position))
    ensures w == t.position ==> l == Zero
  {
    TransformVector(GetInverseBasisVectors(t, m), Sub(w, t.position))
  }

  /** The basis in closed form, with cy, sy for the yaw and cp, sp for the pitch. */
  lemma BasisClosedForm(t: Transform, m: Math)
    ensures var cy, sy, cp, sp := m.cos(t.yaw), m.sin(t.yaw), m.cos(t.pitch), m.sin(t.pitch);
      GetBasisVectors(t, m) == Basis(Point3D(cy, 0.0, sy),
                                     Point3D(sy * sp, cp, -(cy * sp)),
                                     Point3D(-(sy * cp), sp, cy * cp))
  {
  }

  /** Each component of the transformed vector is a row of the matrix, that
      is a column of its transpose, dotted with the vector. */
  lemma TransformVectorRows(b: Basis, v: Point3D)
    ensures TransformVector(b, v) == Point3D(Dot3(Transpose(b).ihat, v), Dot3(Transpose(b).jhat, v), Dot3(Transpose(b).khat, v))
  {
  }

  /** The basis transform commutes with scaling: it is homogeneous. */
  lemma TransformVectorHomogeneous(b: Basis, u: Point3D, s: real)
    ensures TransformVector(b, Mul(u, s)) == Mul(TransformVector(b, u), s)
  {
    var t := Transpose(b);
    TransformVectorRows(b, u);
    TransformVectorRows(b, Mul(u, s));
    Dot3ScaleRight(t.ihat, u, s);
    Dot3ScaleRight(t.jhat, u, s);
    Dot3ScaleRight(t.khat, u, s);
  }

  /** The basis transform distributes over vector addition: it is additive. */
  lemma TransformVectorAdditive(b: Basis, u: Point3D, v: Point3D)
    ensures TransformVector(b, Add(u, v)) == Add(TransformVector(b, u), TransformVector(b, v))
  {
    var t := Transpose(b);
    TransformVectorRows(b, u);
    TransformVectorRows(b, v);
    TransformVectorRows(b, Add(u, v));
    Dot3Additive(t.ihat, u, v);
    Dot3Additive(t.jhat, u, v);
    Dot3Additive(t.khat, u, v);
  }

  /** The direction transform does not depend on the position. */
  lemma DirectionIgnoresPosition(t: Transform, pos: Point3D, dir: Point3D, m: Math)
    ensures TransformDirection(t.(position := pos), dir, m) == TransformDirection(t, dir, m)
  {
  }

  /** With zero yaw and pitch the basis is the identity. */
  lemma ZeroAnglesIdentity(t: Transform, m: Math)
    requires ZeroAngle(m)
    requires t.yaw == 0.0 && t.pitch == 0.0
    ensures GetBasisVectors(t, m) == Identity
  {
  }

  /** ... so world points are plain translations. */
  lemma ZeroAnglesTranslate(t: Transform, p: Point3D, m: Math)
    requires ZeroAngle(m)
    requires t.yaw == 0.0 && t.pitch == 0.0
    ensures ToWorldPoint(t, p, m) == Add(p, t.position)
  {
    ZeroAnglesIdentity(t, m);
    IdentityFixes(p);
  }

  lemma IdentityFixes(p: Point3D)
    ensures TransformVector(Identity, p) == p
  {
  }

  /** Given sin^2 + cos^2 = 1, the basis is orthonormal for every yaw and pitch. */
  lemma BasisOrthonormal(t: Transform, m: Math)
    requires Pythagorean(m)
    ensures Orthonormal(GetBasisVectors(t, m))
  {
    var cy, sy, cp, sp := m.cos(t.yaw), m.sin(t.yaw), m.cos(t.pitch), m.sin(t.pitch);
    BasisClosedForm(t, m);
    ClosedFormOrthonormal(cy, sy, cp, sp);
  }

  /** The closed-form basis is orthonormal when both angle pairs lie on the unit circle. */
  lemma ClosedFormOrthonormal(cy: real, sy: real, cp: real, sp: real)
    requires sy * sy + cy * cy == 1.0 && sp * sp + cp * cp == 1.0
    ensures Orthonormal(Basis(Point3D(cy, 0.0, sy), Point3D(sy * sp, cp, -(cy * sp)), Point3D(-(sy * cp), sp, cy * cp)))
  {
    var b := Basis(Point3D(cy, 0.0, sy), Point3D(sy * sp, cp, -(cy * sp)), Point3D(-(sy * cp), sp, cy * cp));
    assert Dot3(b.jhat, b.jhat) == (sp * sp) * (sy * sy + cy * cy) + cp * cp;
    assert Dot3(b.khat, b.khat) == (cp * cp) * (sy * sy + cy * cy) + sp * sp;
    assert Dot3(b.jhat, b.khat) == (sp * cp) * (1.0 - (sy * sy + cy * cy));
  }

  /** The dot product of `a` with a transformed vector, expanded along the columns. */
  lemma DotTransformVector(a: Point3D, b: Basis, v: Point3D)
    ensures Dot3(a, TransformVector(b, v))
         == v.x * Dot3(a, b.ihat) + v.y * Dot3(a, b.jhat) + v.z * Dot3(a, b.khat)
  {
  }

  /** For an orthonormal basis the transpose undoes the basis. */
  lemma TransposeUndoes(b: Basis, v: Point3D)
    requires Orthonormal(b)
    ensures TransformVector(Transpose(b), TransformVector(b, v)) == v
  {
    var w := TransformVector(b, v);
    DotTransformVector(b.ihat, b, v);
    DotTransformVector(b.jhat, b, v);
    DotTransformVector(b.khat, b, v);
    Dot3Symmetric(b.jhat, b.ihat);
    Dot3Symmetric(b.khat, b.ihat);
    Dot3Symmetric(b.khat, b.jhat);
    assert TransformVector(Transpose(b), w) == Point3D(Dot3(b.ihat, w), Dot3(b.jhat, w), Dot3(b.khat, w));
  }

  /** Given sin^2 + cos^2 = 1, `to_local_point` inverts `to_world_point`. */
  lemma LocalInvertsWorld(t: Transform, p: Point3D, m: Math)
    requires Pythagorean(m)
    ensures ToLocalPoint(t, ToWorldPoint(t, p, m), m) == p
  {
    var b := GetBasisVectors(t, m);
    BasisOrthonormal(t, m);
    assert Sub(ToWorldPoint(t, p, m), t.position) == TransformVector(b, p);
    assert Transpose(b) == GetInverseBasisVectors(t, m);
    TransposeUndoes(b, p);
  }
}
