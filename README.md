# SyncSong interaction core in Dafny

SyncSong is a small Siv3D scene. A cylinder carries a 20 × 8 grid of marker
spheres, and the player uses the mouse to move markers between slots:

- Pressing on a yellow marker picks it up. It moves onto the drag plane
  `x = 3`. If it was still on the cylinder, it leaves behind a gray
  placeholder.
- While the button is held, the marker follows the pointer in y and z.
- Releasing the button drops it. If a gray marker lies near the line from the
  eye through the dropped marker, that gray marker turns yellow and the dragged
  marker disappears. Otherwise the dragged marker stays where it was dropped.
- The cylinder spins on its own when auto-rotation is toggled on. It also turns
  with vertical pointer motion while the button is held and nothing is being
  dragged.

This project models two parts of the program and proves properties of them:

1. **The geometry kernel** (`GeometryUtils`):
   - the row-major cylindrical grid;
   - line/plane and ray/plane intersection with the plane `x = planeX`;
   - point-to-line distance, with its fallback for a degenerate line;
   - the pointer's world position.
2. **The drag-and-drop state machine** (`GameLogic`):
   - the click scan;
   - the snap-target search and the list of snap candidates;
   - the pick, hold and drop stages;
   - the rotation update.

On top of these sit two more modules:

- `GameMain` models the start-up and the frame loop of the current build.
- `Monolith` models the older single-file build. Its snap rule has two gates
  and different thresholds.

Modules:

| module | file | models |
|---|---|---|
| `Wrappers`, `Vectors`, `Siv3D`, `Config` | vectors.dfy | `Optional`, `Vec3`/`Ray`/`Sphere`, the engine primitives, the constants of `SyncSong/Config.hpp` |
| `GeometryUtils` | geometry_utils.dfy | `SyncSong/GeometryUtils.cpp` |
| `GameTypes` | game_types.dfy | `SyncSong/GameTypes.hpp` |
| `GameLogic` | game_logic.dfy | `SyncSong/GameLogic.cpp` |
| `GameMain` | game_main.dfy | `SyncSong/Main.cpp`, the current build's frame loop |
| `Monolith` | monolith.dfy | `SyncSong/SyncSong/Main.cpp`, the older build |

How the source maps onto the model:

- **Coordinates.** A `Vec3` holds three `real`s. The intersections are
  rational arithmetic, so they hold exactly over the reals.
- **Engine primitives.** These are not modelled. They are passed in as
  function values (the `Engine` record):
  - `Math::Cos` and `Math::Sin`;
  - the vector length's square root;
  - `Ray::intersects(Sphere)`;
  - `Mat4x4::RotateZ(angle).transformPoint`.
- **Per-frame reads.** These are fields of the `FrameInput` record:
  - the pointer ray (`camera.screenToRay(Cursor::Pos())`);
  - the eye position (`camera.getEyePosition()`);
  - the `MouseL` down, pressed and up edges;
  - `Scene::DeltaTime()`;
  - `Cursor::Delta().y`;
  - the GUI button click.
- **State.** The marker array is a `seq<SphereState>`, passed in and returned.
  `DragState` is a class whose fields the stages update in place.
  `GameMain.Scene` holds the frame loop's state:
  - the markers;
  - the angle;
  - the auto-rotation flag;
  - the drag session;
  - the grid.
- **Rotation.** `ProcessRotation` updates `rotationAngle` by reference in the
  source. Here it returns the new angle.

The older build's copies of the grid generator, line/plane intersection,
point-to-line distance, click scan, ray/plane intersection and pointer
projection are the same code as the current build's. They are modelled by the
same members:

| copy in the older build | modelled by |
|---|---|
| `SyncSong/SyncSong/Main.cpp:70-96` | `GeometryUtils.GenerateCylinderGridPositions` |
| `SyncSong/SyncSong/Main.cpp:99-114` | `GetLinePlaneIntersection` |
| `SyncSong/SyncSong/Main.cpp:117-132` | `CalculatePointToLineDistance` |
| `SyncSong/SyncSong/Main.cpp:135-170` | `GameLogic.CheckSphereClick` |
| `SyncSong/SyncSong/Main.cpp:173-195` | `GetRayPlaneIntersection` |
| `SyncSong/SyncSong/Main.cpp:198-216` | `GetMouseWorldPosition` |

Its inline pick, hold and drop (`SyncSong/SyncSong/Main.cpp:389-473`) are the same
statements as `SyncSong/GameLogic.cpp:107-191`. `Monolith.DragAndDrop` therefore reuses
`GameLogic.PickAndHold` (which runs `GameLogic.Pick`, then `GameLogic.Hold`) and
`GameLogic.Drop`, but with the older build's own snap search.

## Model

| member | source | states |
|---|---|---|
| `GeometryUtils.GenerateCylinderGridPositions` | SyncSong/GeometryUtils.cpp:6-32 | Empty when a division count is 0 (or negative) or the margins leave no height. Otherwise the result is the row-major grid `GridRows(CylinderPoints(...), uDiv, vDiv)`. It has exactly `uDiv * vDiv` points, and index `GridIndex(v, u, uDiv)` holds the point at angle `u/uDiv · 2π` on the given radius, at the z of row `v`. |
| `GeometryUtils.GridRowsLength` | SyncSong/GeometryUtils.cpp:20-30 | `rows` complete rows hold `RowOffset(rows, uDiv)` points, that is one row's worth per row. |
| `GeometryUtils.GridRowsCount` | SyncSong/GeometryUtils.cpp:20-30 | `rows` complete rows hold `uDiv * rows` points. |
| `GeometryUtils.RowOffsetIsProduct` | SyncSong/GeometryUtils.cpp:20-30 | Row `v` starts at index `v * uDiv`. |
| `GeometryUtils.GridIndexIsRowMajor` | SyncSong/GeometryUtils.cpp:20-29 | Column `u` of row `v` sits at index `v * uDiv + u`. |
| `GeometryUtils.GridRowsAt` | SyncSong/GeometryUtils.cpp:20-30 | In the first `rows` rows, the index of column `u` of row `v` is in range and holds that point. |
| `GeometryUtils.GridLayout` | SyncSong/GeometryUtils.cpp:20-31 | The whole grid is row-major: every (row, column) pair's index is in range and holds its point. |
| `GeometryUtils.GridZIncreases` | SyncSong/GeometryUtils.cpp:14-22 | With positive effective height, a later row has a strictly larger z. |
| `GeometryUtils.GridZSpansBand` | SyncSong/GeometryUtils.cpp:14-22 | Row 0 is at `-eh/2` and the last row at `+eh/2`, where `eh = height - 2·margin`. The z of a row strictly increases with the row number. |
| `GeometryUtils.GetLinePlaneIntersection` | SyncSong/GeometryUtils.cpp:34-49 | Absent exactly when the line's x extent is below 1e-6. When present, the result is on the plane `x = planeX` and on the line through the two points. |
| `GeometryUtils.LinePlaneIntersectionUnique` | SyncSong/GeometryUtils.cpp:44-48 | For a non-parallel line, any point that lies on both the line and the plane is the one returned. |
| `GeometryUtils.GetRayPlaneIntersection` | SyncSong/GeometryUtils.cpp:68-90 | Absent exactly when the ray is parallel (below 1e-6) or the plane is behind the origin (t < 0). When present, the result is on the plane and on the ray's line, in front of the origin. |
| `GeometryUtils.RayPlaneIntersectionAt` | SyncSong/GeometryUtils.cpp:79-89 | For a non-parallel ray whose point at parameter `t` is on the plane: `t >= 0` gives `Some(origin + direction*t)`, and `t < 0` gives none. |
| `GeometryUtils.CalculatePointToLineDistance` | SyncSong/GeometryUtils.cpp:51-66 | A line shorter than 1e-6 gives the plain distance to `lineStart`. Otherwise the result is the length of the offset crossed with a positive multiple of the line's direction. |
| `GeometryUtils.DegenerateLineDistance` | SyncSong/GeometryUtils.cpp:56-60 | A line whose two ends coincide measures the distance to that point. |
| `GeometryUtils.PointOnLineDistanceZero` | SyncSong/GeometryUtils.cpp:62-65 | A point on a non-degenerate line is at distance 0 from it. |
| `GeometryUtils.GetMouseWorldPosition` | SyncSong/GeometryUtils.cpp:92-110 | The ray's hit on the plane `x = DragPlaneX` when constrained and the hit exists. Otherwise `origin + direction * distance`. |
| `GameTypes.SphereStateDefaults` | SyncSong/GameTypes.hpp:12-15 | `SphereState(pos)` is attached and yellow, with `originalIndex == -1`. |
| `GameTypes.SphereStateStoresArguments` | SyncSong/GameTypes.hpp:12-15 | The full-argument constructor stores position, attached, yellow and index unchanged. |
| `GameTypes.DragState.constructor` | SyncSong/GameTypes.hpp:19-27 | A new session is not dragging, has index -1 and has no snap candidates. |
| `GameLogic.CheckSphereClick` | SyncSong/GameLogic.cpp:7-42 | Returns the lowest index whose world position has x >= 0 and which the ray hits. The world position is transformed exactly when the marker is attached. A returned index has world x >= 0. None exactly when no index qualifies. |
| `GameLogic.FirstClickableUnique` | SyncSong/GameLogic.cpp:20-41 | At most one marker is the first clickable one, so the click scan's answer is determined. |
| `GameLogic.FindSnapTarget` | SyncSong/GameLogic.cpp:44-70 | Returns the lowest index that is a snap target: not the excluded index, attached and not yellow, transformed x >= 0, and line distance < 0.2. None exactly when there is no snap target. |
| `GameLogic.FirstSnapTargetUnique` | SyncSong/GameLogic.cpp:47-69 | At most one marker is the first snap target, so the drop's target is determined. |
| `GameLogic.GetSnapCandidates` | SyncSong/GameLogic.cpp:72-98 | The list is strictly ascending and in range. It contains exactly the snap targets. |
| `GameLogic.AscendingListsEqual` | SyncSong/GameLogic.cpp:76-97 | Two strictly ascending lists with the same elements are equal. This is what makes the candidate list unique. |
| `GameLogic.SnapCandidateListUnique` | SyncSong/GameLogic.cpp:72-98 | Any two lists that each contain exactly the snap targets in ascending order are equal. |
| `GameLogic.SnapTargetIsFirstCandidate` | SyncSong/GameLogic.cpp:44-98 | The drop's snap decision is none exactly when the candidate list is empty. Otherwise it is the list's first element. |
| `GameLogic.MarkerOnSightLineIsSnapTarget` | SyncSong/GameLogic.cpp:47-67 | A gray, front-side, non-excluded marker lying exactly on the line from the eye through the dragged marker is a snap target. |
| `GameLogic.Erase` | SyncSong/GameLogic.cpp:186 | Erasing index `i` shortens the array by one. Elements before `i` stay in place, and later ones move down one place in the same order. |
| `GameLogic.DragStartPosition` | SyncSong/GameLogic.cpp:118-139 | A picked marker is put on the plane `x = DragPlaneX`. If the eye→marker line meets the plane, it goes on that line. If the line is parallel, it keeps its y and z. |
| `GameLogic.PickedArray` | SyncSong/GameLogic.cpp:118-150 | After a pick of marker `c`, the marker is at its drag start position and detached. No other marker changes. If it was attached, the array grows by one: a gray attached placeholder at `gridPositions[c]` with `originalIndex = c`. |
| `GameLogic.HeldArray` | SyncSong/GameLogic.cpp:158-165 | After one held frame, the dragged marker's x is `DragPlaneX`, and its y and z grow by the pointer's motion. The length and every other marker are unchanged. |
| `GameLogic.HoldWithoutMotion` | SyncSong/GameLogic.cpp:142-165 | A held frame in which the pointer has not moved leaves a marker already on the drag plane where it is. So the hold that runs in the same frame as a pick changes nothing. |
| `GameLogic.FoundTargetGivesDropOutcome` | SyncSong/GameLogic.cpp:171-187 | The search's answer fed to the drop yields `DropOutcome`. With no snap target the markers are unchanged. Otherwise the first snap target turns yellow and the dragged marker is erased. |
| `GameLogic.Pick` | SyncSong/GameLogic.cpp:107-153 | On a yellow first hit: the session starts with the clicked index, and the marker moves to its drag start position and is detached. If it was attached, exactly one gray attached placeholder with position `gridPositions[clicked]` and `originalIndex = clicked` is appended. No other marker changes. With no hit or a gray hit, the markers and the session are unchanged. |
| `GameLogic.Hold` | SyncSong/GameLogic.cpp:156-168 | The dragged marker's x becomes `DragPlaneX`, and its y and z grow by the pointer's y and z delta. `lastMouseWorldPos` becomes the current pointer position. The length and every other marker are unchanged. |
| `GameLogic.Drop` | SyncSong/GameLogic.cpp:171-191 | With a target: the target turns yellow and the dragged marker is erased, so the length drops by 1 and the order is kept. Without one, the markers are unchanged. Either way the session ends with index -1. |
| `GameLogic.PickAndHold` | SyncSong/GameLogic.cpp:107-168 | The first two stages of a frame, with the whole session afterwards. Idle without a press, or with no yellow first hit: the markers and the session, including `lastMouseWorldPos`, are unchanged. Idle with yellow first hit `c`: dragging `c`, markers `PickedArray`, `lastMouseWorldPos` the current pointer position. While dragging: same index, markers `HoldStage`, `lastMouseWorldPos` the current pointer position when pressed and unchanged otherwise. The feedback list is untouched. |
| `GameLogic.RefreshSnapCandidates` | SyncSong/GameLogic.cpp:193-207 | While dragging, the feedback list is exactly the snap targets for the dragged marker, in ascending order. Otherwise it is cleared. |
| `GameLogic.ProcessDragAndDrop` | SyncSong/GameLogic.cpp:100-208 | States the whole frame. Idle without a press: nothing changes. Idle with a press whose first hit is missing or gray: nothing changes. Idle with a press whose first hit `c` is yellow: the markers are `PickedArray` for `c`. On a release in the same frame they are instead the drop outcome on that array. While dragging: the hold stage gives `HeldArray` if pressed. On a release the session ends, and the markers are the drop outcome for the *first* snap target of the held array, excluding the dragged index. Otherwise the session and index stay. Always: the drag-index invariant holds, and the feedback list is the snap-candidate list while dragging and empty otherwise. `lastMouseWorldPos` is the current pointer position after a pick or a held frame and unchanged otherwise, so a later frame's hold moves the marker by the pointer's motion since the previous frame. |
| `GameLogic.ProcessRotation` | SyncSong/GameLogic.cpp:210-223 | Adds `dt · 15°` in radians only when auto-rotation is on. Adds `dy · -0.3 · π/180` only while pressed and not dragging. With neither, the angle is unchanged. |
| `GameMain.SpawnSpheres` | SyncSong/Main.cpp:44-48 | One attached yellow marker per grid slot, with slot `i` at index `i` and `originalIndex = i`. |
| `GameMain.Scene.constructor` | SyncSong/Main.cpp:36-52 | The grid is the configured 20 × 8 row-major grid of 160 points, with one marker per slot. The angle is 0, auto-rotation is off and there is no drag session. |
| `GameMain.Scene.Frame` | SyncSong/Main.cpp:55-80 | Rotation runs first, using the dragging flag from the start of the frame. Then drag and drop runs under the transform of the *starting* angle, and the button flips auto-rotation. The new markers and session, including `lastMouseWorldPos`, are exactly those `ProcessDragAndDrop` states for the pick, the hold and the release. The drag invariant and the feedback-list property hold after every frame. |
| `Monolith.FindSnapTarget` | SyncSong/SyncSong/Main.cpp:219-258 | Returns the lowest index that is not excluded, gray, at transformed x >= 0, within line distance <= 0.5, and at Euclidean distance < 0.3 from the dragged marker. None exactly when there is no such index. |
| `Monolith.FirstStrictSnapTargetUnique` | SyncSong/SyncSong/Main.cpp:219-258 | At most one marker is the first strict snap target. |
| `Monolith.FoundStrictTargetGivesDropOutcome` | SyncSong/SyncSong/Main.cpp:453-469 | The strict search's answer fed to the drop yields `StrictDropOutcome`. With no strict snap target the markers are unchanged. Otherwise the first strict target turns yellow and the dragged marker is erased. |
| `Monolith.FarMarkerNeverSnaps` | SyncSong/SyncSong/Main.cpp:250-255 | A marker whose squared distance from the dragged marker is at least 0.09 is never a strict snap target. This holds whatever its line distance, for a monotone square root with `√0.09 = 0.3`. |
| `Monolith.AllFarMeansNoSnap` | SyncSong/SyncSong/Main.cpp:219-258 | Suppose every gray, front-side marker other than the dragged one is at squared distance at least 0.09 from it. Then the strict search returns none. Yellow, back-side and dragged markers may be anywhere. |
| `Monolith.DragAndDrop` | SyncSong/SyncSong/Main.cpp:389-473 | The older build's inline pick, hold and drop. The pick and hold outcomes are as in `GameLogic.ProcessDragAndDrop`: `PickedArray`, then `HeldArray`. On a release the markers are the drop outcome for the first *strict* snap target, which must meet both the line distance ≤ 0.5 and the Euclidean distance < 0.3. Otherwise the markers are unchanged. The feedback list is untouched. `lastMouseWorldPos` is stated as in `GameLogic.PickAndHold`. |
| `Monolith.Frame` | SyncSong/SyncSong/Main.cpp:364-482 | Rotation runs first, using the dragging flag from the start of the frame. Then `Monolith.DragAndDrop` runs under the transform of the starting angle, and the button flips auto-rotation. The new markers and session, including `lastMouseWorldPos`, are exactly what that method states. The drag invariant holds, and the feedback list is never touched. |

## Left out

- Rendering, window, render texture, camera control (`camera.update`), the
  gradient texture, the cylinder mesh and the GUI button's drawing are
  graphics-engine calls with nothing to state. The button's click is a
  boolean input.
- Floating point is not modelled: there is no IEEE rounding and no NaN. The
  reals behave exactly, so the 1e-6 tolerance is only a threshold here.
- `Math::Cos`, `Math::Sin`, the square root, `Ray::intersects` and
  `Mat4x4::RotateZ` are uninterpreted function values. Properties that need
  them (x² + y² = r² on the grid, that the transform is a rotation) are not
  stated.
- `GeometryUtils.CalculatePointToLineDistance`: the non-degenerate case is
  stated only up to a positive scaling of the direction (the result is the
  cross product with `k · direction` for some `k > 0`). It is not identified
  with the true geometric distance, because `normalized()` and `length()`
  rest on the abstract square root. It is pinned down exactly for the
  degenerate line and for points on the line.
- `GeometryUtils.GenerateCylinderGridPositions` requires that a single-row
  grid with a positive column count and positive height is not requested. For that input the
  source divides 0 by 0 for the row's z (`SyncSong/GeometryUtils.cpp:22`), which
  gives NaN.
- `GameLogic.Pick`, `GameLogic.PickAndHold`, `GameLogic.ProcessDragAndDrop`,
  `Monolith.DragAndDrop` and the two `Frame` methods require that an attached yellow
  marker the ray would pick has an index below `|gridPositions|`. The source
  reads the placeholder's position at the marker's array index rather than at
  its `originalIndex` (`SyncSong/GameLogic.cpp:149`, `SyncSong/SyncSong/Main.cpp:431`). After
  placeholders have been appended and markers erased, an attached yellow
  marker can sit beyond the grid's length, and the source then reads out of
  range.
- `int32` indices and `int32` loop counters are unbounded integers. Arrays
  above 2³¹ elements are not modelled.
- `DragState.dragOffset` is never used and is omitted.
  `DragState.initialDragPosition` is written at pick-up and never read, so it
  is a ghost field.
- The eye position and the pointer ray are read once per frame and passed in.
  In the current build they are read after the camera update. In the older
  build the eye is read before it. The camera itself is not modelled, so both
  builds take them as inputs.
- The older build's `DragState` has no `snapCandidates`. `Monolith.Frame`
  shares the class and leaves that field unchanged.
