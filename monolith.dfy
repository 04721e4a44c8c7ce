/**
 * The older single-file build of the application. Its grid, intersection,
 * distance, click and pointer helpers are the same code as the geometry kernel
 * and the click scan, and are modelled by those members. What differs is its
 * constants and its two-gate snap rule: a gray marker snaps only when it is
 * near the sight line AND near the dragged marker itself. Its frame loop
 * holds the same state as `GameMain.Scene` and has no feedback list.
 */
module Monolith {
  import opened Wrappers
  import opened Vectors
  import opened Siv3D
  import opened GeometryUtils
  import opened GameTypes
  import opened GameLogic
  import opened GameMain

  /** The largest Euclidean distance (exclusive) from the dragged marker at which a marker snaps. */
  const SnapDistance: real := 0.3
  /** The largest distance (inclusive) from the sight line at which a marker snaps. */
  const SnapLineDistance: real := 0.5

  /**
   * Marker `i` is a snap target under the two-gate rule: not the dragged one,
   * gray, on the front side, within `SnapLineDistance` of the line from the
   * eye through the dragged marker, and closer than `SnapDistance` to it.
   */
  predicate IsStrictSnapTarget(spheres: seq<SphereState>, i: int, excludeIndex: int, draggedPos: Vec3, playerPos: Vec3,
                               transform: Vec3 -> Vec3, sqrt: real -> real)
    requires 0 <= i < |spheres|
  {
    && i != excludeIndex
    && spheres[i].isAttached
    && !spheres[i].isYellow
    && var p := transform(spheres[i].position);
       && p.x >= 0.0
       && CalculatePointToLineDistance(sqrt, p, playerPos, draggedPos) <= SnapLineDistance
       && Distance(sqrt, p, draggedPos) < SnapDistance
  }

  /** Marker `i` is a strict snap target and no marker before it is. */
  predicate IsFirstStrictSnapTarget(spheres: seq<SphereState>, i: int, excludeIndex: int, draggedPos: Vec3,
                                    playerPos: Vec3, transform: Vec3 -> Vec3, sqrt: real -> real)
  {
    && 0 <= i < |spheres|
    && IsStrictSnapTarget(spheres, i, excludeIndex, draggedPos, playerPos, transform, sqrt)
    && forall j :: 0 <= j < i ==> !IsStrictSnapTarget(spheres, j, excludeIndex, draggedPos, playerPos, transform, sqrt)
  }

  /** The lowest-index strict snap target, if any. */
  method FindSnapTarget(draggedPos: Vec3, spheres: seq<SphereState>, excludeIndex: int, playerPos: Vec3,
                        transform: Vec3 -> Vec3, sqrt: real -> real) returns (target: Option<nat>)
    ensures target.Some? ==>
      IsFirstStrictSnapTarget(spheres, target.value, excludeIndex, draggedPos, playerPos, transform, sqrt)
    ensures target.None? <==>
      forall i :: 0 <= i < |spheres| ==> !IsStrictSnapTarget(spheres, i, excludeIndex, draggedPos, playerPos, transform, sqrt)
  {
    var i := 0;
    while i < |spheres|
      invariant 0 <= i <= |spheres|
      invariant forall j :: 0 <= j < i ==>
        !IsStrictSnapTarget(spheres, j, excludeIndex, draggedPos, playerPos, transform, sqrt)
    {
      if i == excludeIndex || !spheres[i].isAttached || spheres[i].isYellow {
        i := i + 1;
        continue;
      }
      var sphereWorldPos := transform(spheres[i].position);
      if sphereWorldPos.x < 0.0 {
        i := i + 1;
        continue;
      }
      var lineDistance := CalculatePointToLineDistance(sqrt, sphereWorldPos, playerPos, draggedPos);
      if lineDistance > SnapLineDistance {
        i := i + 1;
        continue;
      }
      var distance := Distance(sqrt, sphereWorldPos, draggedPos);
      if distance < SnapDistance {
        assert IsStrictSnapTarget(spheres, i, excludeIndex, draggedPos, playerPos, transform, sqrt);
        return Some(i);
      }
      i := i + 1;
    }
    return None;
  }

  /** At most one marker is the first strict snap target. */
  lemma FirstStrictSnapTargetUnique(spheres: seq<SphereState>, i: int, j: int, excludeIndex: int, draggedPos: Vec3,
                                    playerPos: Vec3, transform: Vec3 -> Vec3, sqrt: real -> real)
    requires IsFirstStrictSnapTarget(spheres, i, excludeIndex, draggedPos, playerPos, transform, sqrt)
    requires IsFirstStrictSnapTarget(spheres, j, excludeIndex, draggedPos, playerPos, transform, sqrt)
    ensures i == j
  {
  }

  /**
   * The markers `after` a release of marker `d` under the two-gate rule:
   * unchanged when there is no strict snap target, and otherwise the first
   * strict snap target turned yellow with `d` erased.
   */
  predicate StrictDropOutcome(before: seq<SphereState>, d: int, after: seq<SphereState>, playerPos: Vec3,
                              transform: Vec3 -> Vec3, sqrt: real -> real)
    requires 0 <= d < |before|
  {
    && ((forall i :: 0 <= i < |before| ==>
           !IsStrictSnapTarget(before, i, d, before[d].position, playerPos, transform, sqrt))
        ==> after == before)
    && (forall t :: 0 <= t < |before| && IsFirstStrictSnapTarget(before, t, d, before[d].position, playerPos, transform, sqrt)
          ==> after == Erase(before[t := before[t].(isYellow := true)], d))
  }

  /** The older build's release stage: as `ReleaseOutcome`, with the two-gate drop. */
  predicate StrictReleaseOutcome(held: seq<SphereState>, d: int, input: FrameInput, transform: Vec3 -> Vec3,
                                 sqrt: real -> real, after: seq<SphereState>, isDragging: bool, index: int)
    requires 0 <= d < |held|
  {
    if input.mouseUp then !isDragging && index == -1 && StrictDropOutcome(held, d, after, input.eyePosition, transform, sqrt)
    else isDragging && index == d && after == held
  }

  /** The strict search's answer fed to the drop gives the drop outcome for the first strict snap target. */
  lemma FoundStrictTargetGivesDropOutcome(before: seq<SphereState>, d: int, target: Option<nat>, after: seq<SphereState>,
                                          playerPos: Vec3, transform: Vec3 -> Vec3, sqrt: real -> real)
    requires 0 <= d < |before|
    requires target.Some? ==>
      IsFirstStrictSnapTarget(before, target.value, d, before[d].position, playerPos, transform, sqrt)
    requires target.None? <==>
      forall i :: 0 <= i < |before| ==> !IsStrictSnapTarget(before, i, d, before[d].position, playerPos, transform, sqrt)
    requires target.None? ==> after == before
    requires target.Some? ==> after == Erase(before[target.value := before[target.value].(isYellow := true)], d)
    ensures StrictDropOutcome(before, d, after, playerPos, transform, sqrt)
  {
    forall t | 0 <= t < |before| && IsFirstStrictSnapTarget(before, t, d, before[d].position, playerPos, transform, sqrt)
      ensures after == Erase(before[t := before[t].(isYellow := true)], d)
    {
      assert IsStrictSnapTarget(before, t, d, before[d].position, playerPos, transform, sqrt);
      FirstStrictSnapTargetUnique(before, t, target.value, d, before[d].position, playerPos, transform, sqrt);
    }
  }

  /**
   * With a monotone square root that maps 0.09 to 0.3, a marker whose squared
   * distance from the dragged marker is at least 0.09 never snaps, whatever
   * its distance from the sight line.
   */
  lemma FarMarkerNeverSnaps(spheres: seq<SphereState>, i: int, excludeIndex: int, draggedPos: Vec3, playerPos: Vec3,
                            transform: Vec3 -> Vec3, sqrt: real -> real)
    requires forall a: real, b: real :: 0.0 <= a <= b ==> sqrt(a) <= sqrt(b)
    requires sqrt(SnapDistance * SnapDistance) == SnapDistance
    requires 0 <= i < |spheres|
    requires LengthSq(Sub(transform(spheres[i].position), draggedPos)) >= SnapDistance * SnapDistance
    ensures !IsStrictSnapTarget(spheres, i, excludeIndex, draggedPos, playerPos, transform, sqrt)
  {
    var q := LengthSq(Sub(transform(spheres[i].position), draggedPos));
    assert sqrt(SnapDistance * SnapDistance) <= sqrt(q);
  }

  /** When every gray front-side marker other than the dragged one is that far from it, the search finds nothing. */
  lemma AllFarMeansNoSnap(spheres: seq<SphereState>, excludeIndex: int, draggedPos: Vec3, playerPos: Vec3,
                          transform: Vec3 -> Vec3, sqrt: real -> real, target: Option<nat>)
    requires forall a: real, b: real :: 0.0 <= a <= b ==> sqrt(a) <= sqrt(b)
    requires sqrt(SnapDistance * SnapDistance) == SnapDistance
    requires forall i :: 0 <= i < |spheres| && i != excludeIndex && spheres[i].isAttached && !spheres[i].isYellow
                         && transform(spheres[i].position).x >= 0.0 ==>
      LengthSq(Sub(transform(spheres[i].position), draggedPos)) >= SnapDistance * SnapDistance
    requires target.None? <==>
      forall i :: 0 <= i < |spheres| ==> !IsStrictSnapTarget(spheres, i, excludeIndex, draggedPos, playerPos, transform, sqrt)
    ensures target.None?
  {
    forall i | 0 <= i < |spheres|
      ensures !IsStrictSnapTarget(spheres, i, excludeIndex, draggedPos, playerPos, transform, sqrt)
    {
      if i != excludeIndex && spheres[i].isAttached && !spheres[i].isYellow && transform(spheres[i].position).x >= 0.0 {
        FarMarkerNeverSnaps(spheres, i, excludeIndex, draggedPos, playerPos, transform, sqrt);
      }
    }
  }

  /**
   * The older build's inline drag and drop: pick on button-down while idle,
   * hold while dragging with the button pressed, and drop under the two-gate
   * snap rule on button-up. The feedback list is never touched.
   */
  method DragAndDrop(spheres: seq<SphereState>, dragState: DragState, input: FrameInput, transform: Vec3 -> Vec3,
                     gridPositions: seq<Vec3>, engine: Engine) returns (spheres': seq<SphereState>)
    requires DragIndexValid(spheres, dragState.isDragging, dragState.draggedSphereIndex)
    requires input.mouseDown && !dragState.isDragging ==>
      PickSlotInRange(spheres, gridPositions, input.ray, transform, engine)
    modifies dragState
    ensures DragIndexValid(spheres', dragState.isDragging, dragState.draggedSphereIndex)
    ensures dragState.snapCandidates == old(dragState.snapCandidates)
    ensures !old(dragState.isDragging) && !input.mouseDown ==> spheres' == spheres && !dragState.isDragging
    ensures !old(dragState.isDragging) && input.mouseDown ==>
      forall c :: IsFirstClickable(spheres, c, input.ray, transform, engine) && spheres[c].isYellow ==>
        StrictReleaseOutcome(PickedArray(spheres, c, input.eyePosition, transform, gridPositions), c, input, transform,
                             engine.sqrt, spheres', dragState.isDragging, dragState.draggedSphereIndex)
    ensures !old(dragState.isDragging) && input.mouseDown
            && (forall c :: IsFirstClickable(spheres, c, input.ray, transform, engine) ==> !spheres[c].isYellow) ==>
      spheres' == spheres && !dragState.isDragging
    ensures old(dragState.isDragging) ==>
      var d := old(dragState.draggedSphereIndex);
      StrictReleaseOutcome(HoldStage(spheres, d, old(dragState.lastMouseWorldPos), input), d, input, transform,
                           engine.sqrt, spheres', dragState.isDragging, dragState.draggedSphereIndex)
    ensures old(dragState.isDragging) ==>
      dragState.lastMouseWorldPos == if input.mousePressed then GetMouseWorldPosition(input.ray, MouseRayDistance, true)
                                   else old(dragState.lastMouseWorldPos)
    ensures !old(dragState.isDragging) && !input.mouseDown ==> dragState.lastMouseWorldPos == old(dragState.lastMouseWorldPos)
    ensures !old(dragState.isDragging) && input.mouseDown ==>
      forall c :: IsFirstClickable(spheres, c, input.ray, transform, engine) && spheres[c].isYellow ==>
        dragState.lastMouseWorldPos == GetMouseWorldPosition(input.ray, MouseRayDistance, true)
    ensures !old(dragState.isDragging) && input.mouseDown
            && (forall c :: IsFirstClickable(spheres, c, input.ray, transform, engine) ==> !spheres[c].isYellow) ==>
      dragState.lastMouseWorldPos == old(dragState.lastMouseWorldPos)
  {
    var playerPos := input.eyePosition;
    spheres' := PickAndHold(spheres, dragState, input, transform, gridPositions, engine);
    ghost var held := spheres';
    if dragState.isDragging && input.mouseUp {
      var d := dragState.draggedSphereIndex;
      var snapTarget := FindSnapTarget(spheres'[d].position, spheres', d, playerPos, transform, engine.sqrt);
      spheres' := Drop(spheres', dragState, snapTarget);
      FoundStrictTargetGivesDropOutcome(held, d, snapTarget, spheres', playerPos, transform, engine.sqrt);
    }
  }

  /**
   * One frame of the older build: transform from the angle at the start of the
   * frame, rotation, then the inline pick / hold / drop with the two-gate snap
   * rule, then the button. The feedback list is never touched.
   */
  method Frame(scene: Scene, input: FrameInput, engine: Engine)
    requires scene.Valid()
    requires input.mouseDown && !scene.dragState.isDragging ==>
      PickSlotInRange(scene.spheres, scene.gridPositions, input.ray, engine.rotateZ(scene.rotationAngle), engine)
    modifies scene, scene.dragState
    ensures scene.Valid()
    ensures scene.rotationAngle == old(scene.rotationAngle)
              + (if old(scene.isAutoRotationEnabled) then AutoRotationStep(input.deltaTime) else 0.0)
              + (if input.mousePressed && !old(scene.dragState.isDragging)
                 then MouseRotationStep(input.cursorDeltaY) else 0.0)
    ensures scene.isAutoRotationEnabled == (old(scene.isAutoRotationEnabled) != input.buttonClicked)
    ensures scene.dragState.snapCandidates == old(scene.dragState.snapCandidates)
    ensures !old(scene.dragState.isDragging) && !input.mouseDown ==>
      scene.spheres == old(scene.spheres) && !scene.dragState.isDragging
    ensures old(scene.dragState.isDragging) && !input.mouseUp ==>
      && scene.dragState.isDragging
      && scene.dragState.draggedSphereIndex == old(scene.dragState.draggedSphereIndex)
      && |scene.spheres| == |old(scene.spheres)|
    ensures old(scene.dragState.isDragging) && input.mouseUp ==> !scene.dragState.isDragging
    ensures !old(scene.dragState.isDragging) && input.mouseDown ==>
      var transform := engine.rotateZ(old(scene.rotationAngle));
      forall c :: IsFirstClickable(old(scene.spheres), c, input.ray, transform, engine) && old(scene.spheres)[c].isYellow ==>
        StrictReleaseOutcome(PickedArray(old(scene.spheres), c, input.eyePosition, transform, scene.gridPositions), c,
                             input, transform, engine.sqrt, scene.spheres, scene.dragState.isDragging,
                             scene.dragState.draggedSphereIndex)
    ensures !old(scene.dragState.isDragging) && input.mouseDown
            && (forall c :: IsFirstClickable(old(scene.spheres), c, input.ray, engine.rotateZ(old(scene.rotationAngle)), engine)
                            ==> !old(scene.spheres)[c].isYellow) ==>
      scene.spheres == old(scene.spheres) && !scene.dragState.isDragging
    ensures old(scene.dragState.isDragging) ==>
      var d := old(scene.dragState.draggedSphereIndex);
      StrictReleaseOutcome(HoldStage(old(scene.spheres), d, old(scene.dragState.lastMouseWorldPos), input), d, input,
                           engine.rotateZ(old(scene.rotationAngle)), engine.sqrt, scene.spheres,
                           scene.dragState.isDragging, scene.dragState.draggedSphereIndex)
    ensures old(scene.dragState.isDragging) ==>
      scene.dragState.lastMouseWorldPos == if input.mousePressed then GetMouseWorldPosition(input.ray, MouseRayDistance, true)
                                   else old(scene.dragState.lastMouseWorldPos)
    ensures !old(scene.dragState.isDragging) && !input.mouseDown ==> scene.dragState.lastMouseWorldPos == old(scene.dragState.lastMouseWorldPos)
    ensures !old(scene.dragState.isDragging) && input.mouseDown ==>
      forall c :: IsFirstClickable(old(scene.spheres), c, input.ray, engine.rotateZ(old(scene.rotationAngle)), engine) && old(scene.spheres)[c].isYellow ==>
        scene.dragState.lastMouseWorldPos == GetMouseWorldPosition(input.ray, MouseRayDistance, true)
    ensures !old(scene.dragState.isDragging) && input.mouseDown
            && (forall c :: IsFirstClickable(old(scene.spheres), c, input.ray, engine.rotateZ(old(scene.rotationAngle)), engine) ==> !old(scene.spheres)[c].isYellow) ==>
      scene.dragState.lastMouseWorldPos == old(scene.dragState.lastMouseWorldPos)
  {
    var transform := engine.rotateZ(scene.rotationAngle);
    scene.rotationAngle := ProcessRotation(scene.rotationAngle, scene.isAutoRotationEnabled, scene.dragState.isDragging,
                                           input.mousePressed, input.deltaTime, input.cursorDeltaY);
    scene.spheres := DragAndDrop(scene.spheres, scene.dragState, input, transform, scene.gridPositions, engine);
    if input.buttonClicked {
      scene.isAutoRotationEnabled := !scene.isAutoRotationEnabled;
    }
  }
}
