/** The present/absent result of the fallible queries (Siv3D's Optional). */
module Wrappers {
  datatype Option<+T> = None | Some(value: T)
}

/**
 * Siv3D's three-component vector, over the reals. Only the operations the
 * core uses are modelled; lengths go through a square root that is passed in,
 * because Dafny has no exact square root over the reals.
 */
module Vectors {
  datatype Vec3 = Vec3(x: real, y: real, z: real)

  const Zero := Vec3(0.0, 0.0, 0.0)

  function Add(a: Vec3, b: Vec3): Vec3 {
    Vec3(a.x + b.x, a.y + b.y, a.z + b.z)
  }

  function Sub(a: Vec3, b: Vec3): Vec3 {
    Vec3(a.x - b.x, a.y - b.y, a.z - b.z)
  }

  /** `v * k` */
  function Scale(v: Vec3, k: real): Vec3 {
    Vec3(v.x * k, v.y * k, v.z * k)
  }

  function Dot(a: Vec3, b: Vec3): real {
    a.x * b.x + a.y * b.y + a.z * b.z
  }

  /** `a.cross(b)` */
  function Cross(a: Vec3, b: Vec3): Vec3 {
    Vec3(a.y * b.z - a.z * b.y, a.z * b.x - a.x * b.z, a.x * b.y - a.y * b.x)
  }

  /** `v.lengthSq()`: never negative. */
  function LengthSq(v: Vec3): (r: real)
    ensures r >= 0.0
  {
    v.x * v.x + v.y * v.y + v.z * v.z
  }

  /** `v.length()`, with the library's square root `sqrt`. */
  function Length(sqrt: real -> real, v: Vec3): real {
    sqrt(LengthSq(v))
  }

  /** `a.distanceFrom(b)`: the root of the summed squared coordinate differences. */
  function Distance(sqrt: real -> real, a: Vec3, b: Vec3): real {
    sqrt(LengthSq(Sub(a, b)))
  }

  function Abs(r: real): real {
    if r < 0.0 then -r else r
  }

  /** Siv3D's Ray: an origin and a direction. */
  datatype Ray = Ray(origin: Vec3, direction: Vec3)

  /** Siv3D's Sphere: a centre and a radius. */
  datatype Sphere = Sphere(center: Vec3, radius: real)

  /** A point lies on the line through `a` with direction `d` when its offset from `a` is parallel to `d`. */
  predicate OnLine(p: Vec3, a: Vec3, d: Vec3) {
    Cross(Sub(p, a), d) == Zero
  }
}

/**
 * The parts of the Siv3D engine the core calls but whose internals are not
 * modelled. `Engine` holds library functions that are pure in their inputs;
 * `FrameInput` holds what the core reads from the window, the mouse, the clock
 * and the camera during one frame.
 */
module Siv3D {
  import opened Vectors

  /** `Math::Pi` and `Math::TwoPi`, at the precision of their decimal literals. */
  const Pi: real := 3.141592653589793
  const TwoPi: real := 6.283185307179586

  /** `Math::ToRadians`. */
  function ToRadians(deg: real): real {
    deg * (Pi / 180.0)
  }

  datatype Engine = Engine(
    sqrt: real -> real,                    // Math::Sqrt, as used by length() and distanceFrom()
    cos: real -> real,                     // Math::Cos
    sin: real -> real,                     // Math::Sin
    rayIntersects: (Ray, Sphere) -> bool,  // Ray::intersects(Sphere) returned a value
    rotateZ: real -> Vec3 -> Vec3          // p => Mat4x4::RotateZ(angle).transformPoint(p)
  )

  datatype FrameInput = FrameInput(
    mouseDown: bool,      // MouseL.down()
    mousePressed: bool,   // MouseL.pressed()
    mouseUp: bool,        // MouseL.up()
    ray: Ray,             // camera.screenToRay(Cursor::Pos())
    eyePosition: Vec3,    // camera.getEyePosition()
    deltaTime: real,      // Scene::DeltaTime()
    cursorDeltaY: int,    // Cursor::Delta().y
    buttonClicked: bool   // the auto-rotation SimpleGUI::Button was clicked
  )
}

/** The tuning constants of the component-split program. */
module Config {
  const CylinderRadius: real := 2.0
  const CylinderHeight: real := 6.0
  const RotationSpeedDeg: real := 15.0
  const MouseRotationFactor: real := -0.3
  const GridUDiv: int := 20
  const GridVDiv: int := 8
  const GridMargin: real := 1.0
  const SphereRadius: real := 0.1
  const SnapDistance: real := 0.2
  const DragPlaneX: real := 3.0
}
