/** The free-look camera and its per-frame update from mouse and keyboard
    input. The input that the window library polls is passed in as a
    record, so the update is a pure step from one camera to the next. */
module Camera {
  import opened Numeric
  import opened Point3d
  import opened Transform

  datatype Camera = Camera(fov: real, cameraSpeed: real, mouseSensitivity: real, transform: Transform)

  /** One frame's input: the left mouse button, the mouse movement, the six
      movement keys and the wheel movement. */
  datatype Input = Input(
    leftButtonDown: bool,
    mouseDx: real, mouseDy: real,
    keyW: bool, keyA: bool, keyS: bool, keyD: bool,
    keySpace: bool, keyLeftShift: bool,
    wheel: real)

  /** `f32::clamp`, which panics unless `lo <= hi`. */
  function Clamp(v: real, lo: real, hi: real): (c: real)
    requires lo <= hi
    ensures lo <= c <= hi
    ensures lo <= v <= hi ==> c == v
    ensures v < lo ==> c == lo
    ensures v > hi ==> c == hi
  {
    if v < lo then lo else if v > hi then hi else v
  }

  /** The pitch limit: 85 degrees either way, so the camera cannot flip. */
  function PitchLimit(m: Math): real {
    Radians(m, 85.0)
  }

  function MinFov(m: Math): real {
    Radians(m, 1.0)
  }

  function MaxFov(m: Math): real {
    Radians(m, 170.0)
  }

  /** The look step: with the button down, the mouse turns the camera and
      the pitch is clamped; with the button up, nothing changes. */
  function Look(t: Transform, sensitivity: real, input: Input, m: Math): (r: Transform)
    requires m.pi >= 0.0
    ensures r.position == t.position
    ensures input.leftButtonDown ==> r.yaw == t.yaw - input.mouseDx * sensitivity
    ensures input.leftButtonDown ==> -PitchLimit(m) <= r.pitch <= PitchLimit(m)
    ensures input.leftButtonDown && -PitchLimit(m) <= t.pitch + input.mouseDy * sensitivity <= PitchLimit(m)
            ==> r.pitch == t.pitch + input.mouseDy * sensitivity
    ensures input.leftButtonDown && t.pitch + input.mouseDy * sensitivity < -PitchLimit(m) ==> r.pitch == -PitchLimit(m)
    ensures input.leftButtonDown && t.pitch + input.mouseDy * sensitivity > PitchLimit(m) ==> r.pitch == PitchLimit(m)
    ensures input.leftButtonDown ==> r.pitch == Clamp(t.pitch + input.mouseDy * sensitivity, -PitchLimit(m), PitchLimit(m))
    ensures !input.leftButtonDown ==> r == t
  {
    if input.leftButtonDown then
      var pitch := t.pitch + input.mouseDy * sensitivity;
      t.(yaw := t.yaw - input.mouseDx * sensitivity,
         pitch := Clamp(pitch, -PitchLimit(m), PitchLimit(m)))
    else t
  }

  /** The distance a key moves along one axis: `v` when pressed, else nothing. */
  function Step(key: bool, v: real): (d: real)
    ensures key ==> d == v
    ensures !key ==> d == 0.0
  {
    if key then v else 0.0
  }

  /** `if key { p += dir }`: the point moves by `dir` exactly when the key is pressed. */
  function AddIf(key: bool, p: Point3D, dir: Point3D): (r: Point3D)
    ensures r == Point3D(p.x + Step(key, dir.x), p.y + Step(key, dir.y), p.z + Step(key, dir.z))
  {
    if key then AddAssign(p, dir) else p
  }

  /** `if key { p -= dir }`. */
  function SubIf(key: bool, p: Point3D, dir: Point3D): (r: Point3D)
    ensures r == Point3D(p.x - Step(key, dir.x), p.y - Step(key, dir.y), p.z - Step(key, dir.z))
  {
    if key then SubAssign(p, dir) else p
  }

  /** The six movement keys applied in the source's order: W, A, S, D move
      along the forward and right basis vectors by one unit, Space and
      LeftShift move down and up the y axis by the camera speed. Whatever
      the order of the checks, the point moves by the net displacement of
      the keys. */
  function Move(p: Point3D, right: Point3D, forward: Point3D, speed: real, input: Input): (r: Point3D)
    ensures r == NetMove(p, right, forward, speed, input)
  {
    var p4 := AddIf(input.keyD, SubIf(input.keyS, SubIf(input.keyA, AddIf(input.keyW, p, forward), right), forward), right);
    var p5 := if input.keySpace then p4.(y := p4.y - speed) else p4;
    var p6 := if input.keyLeftShift then p5.(y := p5.y + speed) else p5;
    assert p5 == p4.(y := p4.y - Step(input.keySpace, speed));
    assert p6 == p5.(y := p5.y + Step(input.keyLeftShift, speed));
    p6
  }

  /** `camera_update`. The fov limits need `pi >= 0`, or `clamp` panics. */
  function CameraUpdate(c: Camera, input: Input, m: Math): (r: Camera)
    requires m.pi >= 0.0
    ensures MinFov(m) <= r.fov <= MaxFov(m)
    ensures MinFov(m) <= c.fov - input.wheel / 100.0 <= MaxFov(m) ==> r.fov == c.fov - input.wheel / 100.0
    ensures c.fov - input.wheel / 100.0 < MinFov(m) ==> r.fov == MinFov(m)
    ensures c.fov - input.wheel / 100.0 > MaxFov(m) ==> r.fov == MaxFov(m)
    ensures r.cameraSpeed == c.cameraSpeed && r.mouseSensitivity == c.mouseSensitivity
    ensures r.transform.yaw == Look(c.transform, c.mouseSensitivity, input, m).yaw
    ensures r.transform.pitch == Look(c.transform, c.mouseSensitivity, input, m).pitch
  {
    var looked := Look(c.transform, c.mouseSensitivity, input, m);
    var basis := GetBasisVectors(looked, m);
    var position := Move(looked.position, basis.ihat, basis.khat, c.cameraSpeed, input);
    var fov := Clamp(c.fov - input.wheel / 100.0, MinFov(m), MaxFov(m));
    c.(fov := fov, transform := looked.(position := position))
  }

  /** The displacement along one axis of an opposite pair of keys: `v` for
      the plus key minus `v` for the minus key. */
  function PairStep(plus: bool, minus: bool, v: real): real {
    Step(plus, v) - Step(minus, v)
  }

  /** The net displacement of the movement keys: forward for W minus S,
      right for D minus A, and the camera speed along y for LeftShift minus
      Space. */
  function NetMove(p: Point3D, right: Point3D, forward: Point3D, speed: real, input: Input): Point3D {
    Point3D(p.x + PairStep(input.keyW, input.keyS, forward.x) + PairStep(input.keyD, input.keyA, right.x),
            p.y + PairStep(input.keyW, input.keyS, forward.y) + PairStep(input.keyD, input.keyA, right.y)
                + PairStep(input.keyLeftShift, input.keySpace, speed),
            p.z + PairStep(input.keyW, input.keyS, forward.z) + PairStep(input.keyD, input.keyA, right.z))
  }

  /** Pressing both keys of an opposite pair (W/S, A/D, Space/LeftShift)
      moves the camera as if neither were pressed. */
  lemma OppositeKeysCancel(p: Point3D, right: Point3D, forward: Point3D, speed: real, input: Input)
    ensures input.keyW && input.keyS ==>
      Move(p, right, forward, speed, input) == Move(p, right, forward, speed, input.(keyW := false, keyS := false))
    ensures input.keyA && input.keyD ==>
      Move(p, right, forward, speed, input) == Move(p, right, forward, speed, input.(keyA := false, keyD := false))
    ensures input.keySpace && input.keyLeftShift ==>
      Move(p, right, forward, speed, input) == Move(p, right, forward, speed, input.(keySpace := false, keyLeftShift := false))
  {
    var ws, ad, up := input.(keyW := false, keyS := false), input.(keyA := false, keyD := false),
                      input.(keySpace := false, keyLeftShift := false);
    if input.keyW && input.keyS {
      NetMoveByNetKeys(p, right, forward, speed, input, ws);
    }
    if input.keyA && input.keyD {
      NetMoveByNetKeys(p, right, forward, speed, input, ad);
    }
    if input.keySpace && input.keyLeftShift {
      NetMoveByNetKeys(p, right, forward, speed, input, up);
    }
  }

  /** The net direction of an opposite pair of keys: 1, -1, or 0 when both
      or neither are pressed. */
  function NetKey(plus: bool, minus: bool): int {
    (if plus then 1 else 0) - (if minus then 1 else 0)
  }

  /** Two inputs whose opposite pairs have the same net directions move the
      camera alike. */
  lemma NetMoveByNetKeys(p: Point3D, right: Point3D, forward: Point3D, speed: real, input: Input, other: Input)
    requires NetKey(input.keyW, input.keyS) == NetKey(other.keyW, other.keyS)
    requires NetKey(input.keyD, input.keyA) == NetKey(other.keyD, other.keyA)
    requires NetKey(input.keyLeftShift, input.keySpace) == NetKey(other.keyLeftShift, other.keySpace)
    ensures NetMove(p, right, forward, speed, input) == NetMove(p, right, forward, speed, other)
  {
    PairStepByNetKey(input.keyW, input.keyS, other.keyW, other.keyS, forward.x);
    PairStepByNetKey(input.keyW, input.keyS, other.keyW, other.keyS, forward.y);
    PairStepByNetKey(input.keyW, input.keyS, other.keyW, other.keyS, forward.z);
    PairStepByNetKey(input.keyD, input.keyA, other.keyD, other.keyA, right.x);
    PairStepByNetKey(input.keyD, input.keyA, other.keyD, other.keyA, right.y);
    PairStepByNetKey(input.keyD, input.keyA, other.keyD, other.keyA, right.z);
    PairStepByNetKey(input.keyLeftShift, input.keySpace, other.keyLeftShift, other.keySpace, speed);
  }

  /** An opposite pair moves by an amount fixed by its net direction. */
  lemma PairStepByNetKey(plus: bool, minus: bool, plus': bool, minus': bool, v: real)
    requires NetKey(plus, minus) == NetKey(plus', minus')
    ensures PairStep(plus, minus, v) == PairStep(plus', minus', v)
  {
  }

  /** The position moves by the movement keys along the basis of the
      camera AFTER this frame's look step: W/S along its forward vector and
      A/D along its right vector (see `Move`). */
  lemma CameraUpdateMoves(c: Camera, input: Input, m: Math)
    requires m.pi >= 0.0
    ensures var r := CameraUpdate(c, input, m);
      var b := GetBasisVectors(r.transform, m);
      r.transform.position == Move(c.transform.position, b.ihat, b.khat, c.cameraSpeed, input)
  {
    var looked := Look(c.transform, c.mouseSensitivity, input, m);
    var b := GetBasisVectors(looked, m);
    var moved := Move(looked.position, b.ihat, b.khat, c.cameraSpeed, input);
    assert CameraUpdate(c, input, m).transform == looked.(position := moved);
    BasisIgnoresPosition(looked, moved, m);
  }

  /** The basis depends on the angles only. */
  lemma BasisIgnoresPosition(t: Transform, p: Point3D, m: Math)
    ensures GetBasisVectors(t.(position := p), m) == GetBasisVectors(t, m)
  {
  }
}
