/**
 * The geometry kernel: the cylindrical marker grid, line/ray intersections
 * with the drag plane `x = planeX`, point-to-line distance and the pointer's
 * world position. The intersections are rational arithmetic and hold exactly
 * over the reals; cos, sin and the square root are the engine's.
 */
module GeometryUtils {
  import opened Wrappers
  import opened Vectors
  import Config
  import Siv3D

  /** The tolerance `1e-6` below which a direction is parallel to the plane or a line is a point. */
  const Epsilon: real := 0.000001

  // ---------------------------------------------------------------------------
  // Cylinder grid

  /** Height of the band the grid covers: `height - margin * 2`. */
  function EffectiveHeight(height: real, margin: real): real {
    height - margin * 2.0
  }

  /** z of row `v` of a `vDiv`-row grid: rows are spread evenly from `-eh/2` to `+eh/2`. */
  function GridZ(height: real, margin: real, vDiv: int, v: int): real
    requires vDiv >= 2
  {
    (v as real / (vDiv - 1) as real - 0.5) * EffectiveHeight(height, margin)
  }

  /** The grid point at column `u`, row `v`. */
  function GridPoint(cos: real -> real, sin: real -> real, radius: real, height: real,
                     uDiv: int, vDiv: int, margin: real, u: int, v: int): Vec3
    requires uDiv > 0 && vDiv >= 2
  {
    var angle := (u as real / uDiv as real) * Siv3D.TwoPi;
    Vec3(radius * cos(angle), radius * sin(angle), GridZ(height, margin, vDiv, v))
  }

  /** The cylinder grid as a map from (column, row) to its point. */
  function CylinderPoints(cos: real -> real, sin: real -> real, radius: real, height: real,
                          uDiv: int, vDiv: int, margin: real): (int, int) -> Vec3
    requires uDiv > 0 && vDiv >= 2
  {
    (u: int, v: int) => GridPoint(cos, sin, radius, height, uDiv, vDiv, margin, u, v)
  }

  /** Row `v` of a grid with `uDiv` columns: its points in column order. */
  function GridRow(point: (int, int) -> Vec3, uDiv: nat, v: int): (row: seq<Vec3>)
    ensures |row| == uDiv
    ensures forall u :: 0 <= u < uDiv ==> row[u] == point(u, v)
  {
    seq(uDiv, u => point(u, v))
  }

  /** The first `rows` rows, one after the other (row-major order). */
  function GridRows(point: (int, int) -> Vec3, uDiv: nat, rows: nat): seq<Vec3>
  {
    if rows == 0 then [] else GridRows(point, uDiv, rows - 1) + GridRow(point, uDiv, rows - 1)
  }

  /** Where row `v` starts in a grid of `n` columns, built up one row at a time. */
  function RowOffset(v: nat, n: nat): nat {
    if v == 0 then 0 else RowOffset(v - 1, n) + n
  }

  /** Row `v` starts at index `v * n`. */
  lemma {:induction false} RowOffsetIsProduct(v: nat, n: nat)
    ensures RowOffset(v, n) == v * n
  {
    if v > 0 {
      RowOffsetIsProduct(v - 1, n);
      assert (v - 1) * n + n == v * n;
    }
  }

  /** The index of column `u` of row `v` in a row-major grid of `n` columns. */
  function GridIndex(v: nat, u: nat, n: nat): nat {
    RowOffset(v, n) + u
  }

  /** Column `u` of row `v` sits at `v * n + u`. */
  lemma GridIndexIsRowMajor(v: nat, u: nat, n: nat)
    ensures GridIndex(v, u, n) == v * n + u
  {
    RowOffsetIsProduct(v, n);
  }

  /** An index in a row before row `r` lies before the start of row `r`. */
  lemma {:induction false} EarlierRowIndex(v: nat, u: nat, n: nat, r: nat)
    requires v < r && u < n
    ensures RowOffset(v, n) + u < RowOffset(r, n)
  {
    if v < r - 1 {
      EarlierRowIndex(v, u, n, r - 1);
    }
  }

  /** The first `rows` rows hold `RowOffset(rows, uDiv)` points. */
  lemma {:induction false} GridRowsLength(point: (int, int) -> Vec3, uDiv: nat, rows: nat)
    ensures |GridRows(point, uDiv, rows)| == RowOffset(rows, uDiv)
  {
    if rows > 0 {
      GridRowsLength(point, uDiv, rows - 1);
    }
  }

  /** Element `RowOffset(v, uDiv) + u` of the first `rows` rows is the point of column `u`, row `v`. */
  lemma {:induction false} GridRowsAt(point: (int, int) -> Vec3, uDiv: nat, rows: nat, v: nat, u: nat)
    requires v < rows && u < uDiv
    ensures RowOffset(v, uDiv) + u < |GridRows(point, uDiv, rows)|
    ensures GridRows(point, uDiv, rows)[RowOffset(v, uDiv) + u] == point(u, v)
  {
    GridRowsLength(point, uDiv, rows);
    GridRowsLength(point, uDiv, rows - 1);
    var prefix := GridRows(point, uDiv, rows - 1);
    assert GridRows(point, uDiv, rows) == prefix + GridRow(point, uDiv, rows - 1);
    if v < rows - 1 {
      EarlierRowIndex(v, u, uDiv, rows - 1);
      GridRowsAt(point, uDiv, rows - 1, v, u);
    } else {
      assert RowOffset(v, uDiv) + u - |prefix| == u;
    }
  }

  /** A grid of `rows` rows holds `uDiv * rows` points. */
  lemma GridRowsCount(point: (int, int) -> Vec3, uDiv: nat, rows: nat)
    ensures |GridRows(point, uDiv, rows)| == uDiv * rows
  {
    GridRowsLength(point, uDiv, rows);
    RowOffsetIsProduct(rows, uDiv);
    assert rows * uDiv == uDiv * rows;
  }

  /**
   * A grid of `rows` rows is row-major: column `u` of row `v` sits at
   * `GridIndex(v, u, uDiv)`, that is `v * uDiv + u` (`GridIndexIsRowMajor`).
   */
  lemma GridLayout(point: (int, int) -> Vec3, uDiv: nat, rows: nat)
    ensures |GridRows(point, uDiv, rows)| == RowOffset(rows, uDiv)
    ensures forall v, u :: 0 <= v < rows && 0 <= u < uDiv ==>
      && GridIndex(v, u, uDiv) < |GridRows(point, uDiv, rows)|
      && GridRows(point, uDiv, rows)[GridIndex(v, u, uDiv)] == point(u, v)
  {
  }

  /** Appending the next point of row `v` extends the row prefix by one. */
  lemma RowPrefixGrows(point: (int, int) -> Vec3, uDiv: nat, v: int, u: nat, prefix: seq<Vec3>)
    requires u < uDiv
    ensures prefix + GridRow(point, uDiv, v)[..u] + [point(u, v)] == prefix + GridRow(point, uDiv, v)[..u + 1]
  {
    var row := GridRow(point, uDiv, v);
    assert row[..u + 1] == row[..u] + [row[u]];
  }

  /** A completed row `v` turns the first `v` rows into the first `v + 1`. */
  lemma RowCompletes(point: (int, int) -> Vec3, uDiv: nat, v: nat)
    ensures GridRows(point, uDiv, v) + GridRow(point, uDiv, v)[..uDiv] == GridRows(point, uDiv, v + 1)
  {
    assert GridRow(point, uDiv, v)[..uDiv] == GridRow(point, uDiv, v);
  }

  /**
   * The points of a `uDiv` by `vDiv` grid on a cylinder of the given radius,
   * row by row from the bottom row: empty when a division count is zero or
   * negative or when the margins leave no height. A single-row grid with a
   * positive column count and height divides 0 by 0 in the source (a NaN z)
   * and is excluded.
   */
  method GenerateCylinderGridPositions(cos: real -> real, sin: real -> real, radius: real, height: real,
                                       uDiv: int, vDiv: int, margin: real) returns (positions: seq<Vec3>)
    requires !(uDiv > 0 && vDiv == 1 && EffectiveHeight(height, margin) > 0.0)
    ensures uDiv <= 0 || vDiv <= 0 || EffectiveHeight(height, margin) <= 0.0 ==> positions == []
    ensures uDiv > 0 && vDiv > 0 && EffectiveHeight(height, margin) > 0.0 ==>
      vDiv >= 2 && positions == GridRows(CylinderPoints(cos, sin, radius, height, uDiv, vDiv, margin), uDiv, vDiv)
    ensures uDiv > 0 && vDiv > 0 && EffectiveHeight(height, margin) > 0.0 ==> |positions| == uDiv * vDiv
    ensures uDiv > 0 && vDiv > 0 && EffectiveHeight(height, margin) > 0.0 ==>
      forall v, u :: 0 <= v < vDiv && 0 <= u < uDiv ==>
        && GridIndex(v, u, uDiv) < |positions|
        && positions[GridIndex(v, u, uDiv)] == GridPoint(cos, sin, radius, height, uDiv, vDiv, margin, u, v)
  {
    positions := [];
    if uDiv == 0 || vDiv == 0 {
      return;
    }
    var effectiveHeight := height - margin * 2.0;
    if effectiveHeight <= 0.0 {
      return;
    }
    if uDiv < 0 || vDiv < 0 {
      // neither loop adds a point
      return;
    }
    ghost var points := CylinderPoints(cos, sin, radius, height, uDiv, vDiv, margin);
    var v := 0;
    while v < vDiv
      invariant 0 <= v <= vDiv
      invariant positions == GridRows(points, uDiv, v)
    {
      var z := (v as real / (vDiv - 1) as real - 0.5) * effectiveHeight;
      var u := 0;
      while u < uDiv
        invariant 0 <= u <= uDiv
        invariant positions == GridRows(points, uDiv, v) + GridRow(points, uDiv, v)[..u]
      {
        var angle := (u as real / uDiv as real) * Siv3D.TwoPi;
        var x := radius * cos(angle);
        var y := radius * sin(angle);
        assert Vec3(x, y, z) == points(u, v);
        RowPrefixGrows(points, uDiv, v, u, GridRows(points, uDiv, v));
        positions := positions + [Vec3(x, y, z)];
        u := u + 1;
      }
      RowCompletes(points, uDiv, v);
      v := v + 1;
    }
    GridRowsCount(points, uDiv, vDiv);
    GridLayout(points, uDiv, vDiv);
  }

  /** z strictly increases from row `v` to a later row `w`. */
  lemma GridZIncreases(height: real, margin: real, vDiv: int, v: int, w: int)
    requires vDiv >= 2 && EffectiveHeight(height, margin) > 0.0
    requires 0 <= v < w < vDiv
    ensures GridZ(height, margin, vDiv, v) < GridZ(height, margin, vDiv, w)
  {
  }

  /** The bottom row sits at `-eh/2`, the top row at `+eh/2`, and every row lies between them in order. */
  lemma GridZSpansBand(height: real, margin: real, vDiv: int)
    requires vDiv >= 2 && EffectiveHeight(height, margin) > 0.0
    ensures GridZ(height, margin, vDiv, 0) == -EffectiveHeight(height, margin) / 2.0
    ensures GridZ(height, margin, vDiv, vDiv - 1) == EffectiveHeight(height, margin) / 2.0
    ensures forall v, w :: 0 <= v < w < vDiv ==> GridZ(height, margin, vDiv, v) < GridZ(height, margin, vDiv, w)
  {
  }

  // ---------------------------------------------------------------------------
  // Intersections with the plane x = planeX

  /**
   * The point where the infinite line through `lineStart` and `lineEnd` meets
   * the plane `x = planeX`; absent when the line is parallel to the plane.
   */
  function GetLinePlaneIntersection(lineStart: Vec3, lineEnd: Vec3, planeX: real): (r: Option<Vec3>)
    ensures r.None? <==> Abs(lineEnd.x - lineStart.x) < Epsilon
    ensures r.Some? ==> r.value.x == planeX && OnLine(r.value, lineStart, Sub(lineEnd, lineStart))
  {
    var direction := Sub(lineEnd, lineStart);
    if Abs(direction.x) < Epsilon then None
    else
      var t := (planeX - lineStart.x) / direction.x;
      assert direction.x * t == planeX - lineStart.x;
      Some(Add(lineStart, Scale(direction, t)))
  }

  /** Any point of the plane on a non-parallel line is the one the intersection returns. */
  lemma LinePlaneIntersectionUnique(lineStart: Vec3, lineEnd: Vec3, planeX: real, p: Vec3)
    requires Abs(lineEnd.x - lineStart.x) >= Epsilon
    requires p.x == planeX && OnLine(p, lineStart, Sub(lineEnd, lineStart))
    ensures GetLinePlaneIntersection(lineStart, lineEnd, planeX) == Some(p)
  {
    var d := Sub(lineEnd, lineStart);
    OnLineIsMultiple(p, lineStart, d);
  }

  /** With `d.x != 0`, a point on the line through `a` along `d` is `a + d * t` for the t that matches its x. */
  lemma OnLineIsMultiple(p: Vec3, a: Vec3, d: Vec3)
    requires d.x != 0.0 && OnLine(p, a, d)
    ensures p == Add(a, Scale(d, (p.x - a.x) / d.x))
  {
  }

  /**
   * The point where the ray meets the plane `x = planeX`; absent when the ray
   * is parallel to the plane or the plane lies behind the ray's origin.
   */
  function GetRayPlaneIntersection(ray: Ray, planeX: real): (r: Option<Vec3>)
    ensures r.None? <==>
      Abs(ray.direction.x) < Epsilon || (planeX - ray.origin.x) / ray.direction.x < 0.0
    ensures r.Some? ==>
      && r.value.x == planeX
      && OnLine(r.value, ray.origin, ray.direction)
      && Dot(Sub(r.value, ray.origin), ray.direction) >= 0.0
  {
    var origin := ray.origin;
    var direction := ray.direction;
    if Abs(direction.x) < Epsilon then None
    else
      var t := (planeX - origin.x) / direction.x;
      if t < 0.0 then None
      else
        assert direction.x * t == planeX - origin.x;
        assert Dot(Sub(Add(origin, Scale(direction, t)), origin), direction) == t * LengthSq(direction);
        Some(Add(origin, Scale(direction, t)))
  }

  /** A point of the plane at parameter `t >= 0` along a non-parallel ray is the ray's intersection; at `t < 0` there is none. */
  lemma RayPlaneIntersectionAt(ray: Ray, planeX: real, t: real)
    requires Abs(ray.direction.x) >= Epsilon
    requires Add(ray.origin, Scale(ray.direction, t)).x == planeX
    ensures t >= 0.0 ==> GetRayPlaneIntersection(ray, planeX) == Some(Add(ray.origin, Scale(ray.direction, t)))
    ensures t < 0.0 ==> GetRayPlaneIntersection(ray, planeX) == None
  {
    var d := ray.direction;
    assert d.x * t == planeX - ray.origin.x;
    assert (planeX - ray.origin.x) / d.x == t;
  }

  // ---------------------------------------------------------------------------
  // Distance and pointer projection

  /**
   * Distance from `point` to the infinite line through `lineStart` and
   * `lineEnd`: the length of the offset crossed with the line's unit
   * direction, or the distance to `lineStart` when the line is shorter than
   * `Epsilon`.
   */
  function CalculatePointToLineDistance(sqrt: real -> real, point: Vec3, lineStart: Vec3, lineEnd: Vec3): (r: real)
    ensures Length(sqrt, Sub(lineEnd, lineStart)) < Epsilon ==> r == Distance(sqrt, point, lineStart)
    ensures Length(sqrt, Sub(lineEnd, lineStart)) >= Epsilon ==>
      exists k: real :: k > 0.0 && r == Length(sqrt, Cross(Sub(point, lineStart), Scale(Sub(lineEnd, lineStart), k)))
  {
    var lineVec := Sub(lineEnd, lineStart);
    var pointVec := Sub(point, lineStart);
    var lineLength := Length(sqrt, lineVec);
    if lineLength < Epsilon then Distance(sqrt, point, lineStart)
    else
      var lineDir := Scale(lineVec, 1.0 / lineLength);
      var cross := Cross(pointVec, lineDir);
      Length(sqrt, cross)
  }

  /** A line whose two ends coincide measures the plain distance to that point. */
  lemma DegenerateLineDistance(sqrt: real -> real, point: Vec3, a: Vec3)
    requires sqrt(0.0) == 0.0
    ensures CalculatePointToLineDistance(sqrt, point, a, a) == Distance(sqrt, point, a)
  {
  }

  /** A point on the line is at distance zero from it. */
  lemma PointOnLineDistanceZero(sqrt: real -> real, lineStart: Vec3, lineEnd: Vec3, t: real)
    requires sqrt(0.0) == 0.0
    requires Length(sqrt, Sub(lineEnd, lineStart)) >= Epsilon
    ensures CalculatePointToLineDistance(sqrt, Add(lineStart, Scale(Sub(lineEnd, lineStart), t)), lineStart, lineEnd) == 0.0
  {
    var d := Sub(lineEnd, lineStart);
    var k := 1.0 / Length(sqrt, d);
    var w := Sub(Add(lineStart, Scale(d, t)), lineStart);
    assert w == Scale(d, t);
    ParallelCrossZero(d, t, k);
    assert Cross(w, Scale(d, k)) == Zero;
    assert LengthSq(Zero) == 0.0;
  }

  /** Two multiples of one vector have a zero cross product. */
  lemma ParallelCrossZero(d: Vec3, s: real, k: real)
    ensures Cross(Scale(d, s), Scale(d, k)) == Zero
  {
    assert (d.y * s) * (d.z * k) == (d.z * s) * (d.y * k);
    assert (d.z * s) * (d.x * k) == (d.x * s) * (d.z * k);
    assert (d.x * s) * (d.y * k) == (d.y * s) * (d.x * k);
  }

  /**
   * The world position of the pointer: the ray's hit on the drag plane when
   * `constrainToPlane` is set and the hit exists, otherwise the point
   * `distance` along the ray.
   */
  function GetMouseWorldPosition(ray: Ray, distance: real, constrainToPlane: bool): (r: Vec3)
    ensures constrainToPlane && GetRayPlaneIntersection(ray, Config.DragPlaneX).Some? ==>
      r == GetRayPlaneIntersection(ray, Config.DragPlaneX).value && r.x == Config.DragPlaneX
    ensures !(constrainToPlane && GetRayPlaneIntersection(ray, Config.DragPlaneX).Some?) ==>
      r == Add(ray.origin, Scale(ray.direction, distance))
  {
    if constrainToPlane && GetRayPlaneIntersection(ray, Config.DragPlaneX).Some? then
      GetRayPlaneIntersection(ray, Config.DragPlaneX).value
    else
      Add(ray.origin, Scale(ray.direction, distance))
  }
}
