/**
 * The interaction core: picking a marker with the pointer ray, the snap-target
 * search, and the per-frame pick / hold / drop state machine over the marker
 * array and the drag session, plus the rotation update.
 */
module GameLogic {
  import opened Wrappers
  import opened Vectors
  import opened Siv3D
  import Config
  import opened GeometryUtils
  import opened GameTypes

  /** The fallback distance along the pointer ray passed at each call of `GetMouseWorldPosition`. */
  const MouseRayDistance: real := 5.0

  // ---------------------------------------------------------------------------
  // Picking

  /** Where a marker is in the world: attached markers follow the cylinder's transform, detached ones are stored in world space. */
  function WorldPosition(s: SphereState, transform: Vec3 -> Vec3): Vec3 {
    if s.isAttached then transform(s.position) else s.position
  }

  /** The pointer ray hits marker `s` and `s` is on the front side (world x >= 0). */
  predicate IsClickable(s: SphereState, ray: Ray, transform: Vec3 -> Vec3, engine: Engine) {
    var p := WorldPosition(s, transform);
    p.x >= 0.0 && engine.rayIntersects(ray, Sphere(p, Config.SphereRadius))
  }

  /** Marker `i` is clickable and no marker before it is. */
  predicate IsFirstClickable(spheres: seq<SphereState>, i: int, ray: Ray, transform: Vec3 -> Vec3, engine: Engine) {
    && 0 <= i < |spheres|
    && IsClickable(spheres[i], ray, transform, engine)
    && forall j :: 0 <= j < i ==> !IsClickable(spheres[j], ray, transform, engine)
  }

  /** The lowest-index marker on the front side that the pointer ray hits, if any. */
  method CheckSphereClick(ray: Ray, spheres: seq<SphereState>, transform: Vec3 -> Vec3, engine: Engine)
    returns (clicked: Option<nat>)
    ensures clicked.Some? ==> IsFirstClickable(spheres, clicked.value, ray, transform, engine)
    ensures clicked.Some? ==> WorldPosition(spheres[clicked.value], transform).x >= 0.0
    ensures clicked.None? <==> forall i :: 0 <= i < |spheres| ==> !IsClickable(spheres[i], ray, transform, engine)
  {
    var i := 0;
    while i < |spheres|
      invariant 0 <= i <= |spheres|
      invariant forall j :: 0 <= j < i ==> !IsClickable(spheres[j], ray, transform, engine)
    {
      var worldPos := WorldPosition(spheres[i], transform);
      if worldPos.x < 0.0 {
        i := i + 1;
        continue;
      }
      var sphere := Sphere(worldPos, Config.SphereRadius);
      if engine.rayIntersects(ray, sphere) {
        return Some(i);
      }
      i := i + 1;
    }
    return None;
  }

  /** At most one marker is the first clickable one. */
  lemma FirstClickableUnique(spheres: seq<SphereState>, i: int, j: int, ray: Ray, transform: Vec3 -> Vec3, engine: Engine)
    requires IsFirstClickable(spheres, i, ray, transform, engine)
    requires IsFirstClickable(spheres, j, ray, transform, engine)
    ensures i == j
  {
  }

  // ---------------------------------------------------------------------------
  // Snap targets

  /**
   * Marker `i` is a snap target for a marker dragged to `draggedPos`: it is not
   * the dragged one, it is gray (attached and not yellow), it is on the front
   * side, and it lies within `SnapDistance` of the line from the eye through
   * the dragged marker.
   */
  predicate IsSnapTarget(spheres: seq<SphereState>, i: int, excludeIndex: int, draggedPos: Vec3, playerPos: Vec3,
                         transform: Vec3 -> Vec3, sqrt: real -> real)
    requires 0 <= i < |spheres|
  {
    && i != excludeIndex
    && spheres[i].isAttached
    && !spheres[i].isYellow
    && var p := transform(spheres[i].position);
       p.x >= 0.0 && CalculatePointToLineDistance(sqrt, p, playerPos, draggedPos) < Config.SnapDistance
  }

  /** Marker `i` is a snap target and no marker before it is. */
  predicate IsFirstSnapTarget(spheres: seq<SphereState>, i: int, excludeIndex: int, draggedPos: Vec3, playerPos: Vec3,
                              transform: Vec3 -> Vec3, sqrt: real -> real)
  {
    && 0 <= i < |spheres|
    && IsSnapTarget(spheres, i, excludeIndex, draggedPos, playerPos, transform, sqrt)
    && forall j :: 0 <= j < i ==> !IsSnapTarget(spheres, j, excludeIndex, draggedPos, playerPos, transform, sqrt)
  }

  /** The lowest-index snap target, if any. */
  method FindSnapTarget(draggedPos: Vec3, spheres: seq<SphereState>, excludeIndex: int, playerPos: Vec3,
                        transform: Vec3 -> Vec3, sqrt: real -> real) returns (target: Option<nat>)
    ensures target.Some? ==> IsFirstSnapTarget(spheres, target.value, excludeIndex, draggedPos, playerPos, transform, sqrt)
    ensures target.None? <==>
      forall i :: 0 <= i < |spheres| ==> !IsSnapTarget(spheres, i, excludeIndex, draggedPos, playerPos, transform, sqrt)
  {
    var i := 0;
    while i < |spheres|
      invariant 0 <= i <= |spheres|
      invariant forall j :: 0 <= j < i ==> !IsSnapTarget(spheres, j, excludeIndex, draggedPos, playerPos, transform, sqrt)
    {
      if i == excludeIndex || !spheres[i].isAttached || spheres[i].isYellow {
        i := i + 1;
        continue;
      }
      var sphereWorldPos := transform(spheres[i].position);
      if sphereWorldPos.x < 0.0 {
        i := i + 1;
        continue;
      }
      var lineDistance := CalculatePointToLineDistance(sqrt, sphereWorldPos, playerPos, draggedPos);
      if lineDistance < Config.SnapDistance {
        assert IsSnapTarget(spheres, i, excludeIndex, draggedPos, playerPos, transform, sqrt);
        return Some(i);
      }
      i := i + 1;
    }
    return None;
  }

  /** At most one marker is the first snap target. */
  lemma FirstSnapTargetUnique(spheres: seq<SphereState>, i: int, j: int, excludeIndex: int, draggedPos: Vec3,
                              playerPos: Vec3, transform: Vec3 -> Vec3, sqrt: real -> real)
    requires IsFirstSnapTarget(spheres, i, excludeIndex, draggedPos, playerPos, transform, sqrt)
    requires IsFirstSnapTarget(spheres, j, excludeIndex, draggedPos, playerPos, transform, sqrt)
    ensures i == j
  {
  }

  predicate StrictlyAscending(s: seq<int>) {
    forall i, j :: 0 <= i < j < |s| ==> s[i] < s[j]
  }

  /** `list` is exactly the snap targets, in ascending index order. */
  predicate IsSnapCandidateList(list: seq<int>, spheres: seq<SphereState>, excludeIndex: int, draggedPos: Vec3,
                                playerPos: Vec3, transform: Vec3 -> Vec3, sqrt: real -> real)
  {
    && StrictlyAscending(list)
    && (forall k :: 0 <= k < |list| ==>
          0 <= list[k] < |spheres| && IsSnapTarget(spheres, list[k], excludeIndex, draggedPos, playerPos, transform, sqrt))
    && (forall i :: 0 <= i < |spheres| && IsSnapTarget(spheres, i, excludeIndex, draggedPos, playerPos, transform, sqrt) ==>
          i in list)
  }

  /** Every snap target, in ascending order (the debug feedback list). */
  method GetSnapCandidates(draggedPos: Vec3, spheres: seq<SphereState>, excludeIndex: int, playerPos: Vec3,
                           transform: Vec3 -> Vec3, sqrt: real -> real) returns (candidates: seq<int>)
    ensures IsSnapCandidateList(candidates, spheres, excludeIndex, draggedPos, playerPos, transform, sqrt)
  {
    candidates := [];
    var i := 0;
    while i < |spheres|
      invariant 0 <= i <= |spheres|
      invariant StrictlyAscending(candidates)
      invariant forall k :: 0 <= k < |candidates| ==>
        0 <= candidates[k] < i && IsSnapTarget(spheres, candidates[k], excludeIndex, draggedPos, playerPos, transform, sqrt)
      invariant forall j :: 0 <= j < i && IsSnapTarget(spheres, j, excludeIndex, draggedPos, playerPos, transform, sqrt) ==>
        j in candidates
    {
      if i == excludeIndex || !spheres[i].isAttached || spheres[i].isYellow {
        i := i + 1;
        continue;
      }
      var sphereWorldPos := transform(spheres[i].position);
      if sphereWorldPos.x < 0.0 {
        i := i + 1;
        continue;
      }
      var lineDistance := CalculatePointToLineDistance(sqrt, sphereWorldPos, playerPos, draggedPos);
      if lineDistance < Config.SnapDistance {
        candidates := candidates + [i];
      }
      i := i + 1;
    }
  }

  /** In an ascending list the head is the least element and the tail holds all the others. */
  lemma AscendingHeadAndTail(a: seq<int>)
    requires StrictlyAscending(a) && a != []
    ensures forall x :: x in a ==> a[0] <= x
    ensures forall x :: x in a[1..] <==> x in a && x != a[0]
  {
    forall x | x in a
      ensures a[0] <= x && (x != a[0] ==> x in a[1..])
    {
      var k :| 0 <= k < |a| && a[k] == x;
      if k > 0 {
        assert a[1..][k - 1] == x;
      }
    }
    forall x | x in a[1..]
      ensures x in a && x != a[0]
    {
      var k :| 0 <= k < |a| - 1 && a[1..][k] == x;
      assert a[k + 1] == x;
    }
  }

  /** Two ascending lists with the same elements are the same list. */
  lemma {:induction false} AscendingListsEqual(a: seq<int>, b: seq<int>)
    requires StrictlyAscending(a) && StrictlyAscending(b)
    requires forall x :: x in a <==> x in b
    ensures a == b
    decreases |a|
  {
    assert b != [] ==> b[0] in b && b[0] in a;
    if a != [] {
      assert a[0] in a;
      AscendingHeadAndTail(a);
      AscendingHeadAndTail(b);
      assert a[0] == b[0] by {
        assert a[0] in b;
        assert b[0] in a;
      }
      AscendingListsEqual(a[1..], b[1..]);
      assert a == [a[0]] + a[1..] && b == [b[0]] + b[1..];
    }
  }

  /** The candidate list is determined by the state: asking twice gives the same list. */
  lemma SnapCandidateListUnique(l1: seq<int>, l2: seq<int>, spheres: seq<SphereState>, excludeIndex: int,
                                draggedPos: Vec3, playerPos: Vec3, transform: Vec3 -> Vec3, sqrt: real -> real)
    requires IsSnapCandidateList(l1, spheres, excludeIndex, draggedPos, playerPos, transform, sqrt)
    requires IsSnapCandidateList(l2, spheres, excludeIndex, draggedPos, playerPos, transform, sqrt)
    ensures l1 == l2
  {
    forall x
      ensures x in l1 <==> x in l2
    {
      if x in l1 {
        var k :| 0 <= k < |l1| && l1[k] == x;
      }
      if x in l2 {
        var k :| 0 <= k < |l2| && l2[k] == x;
      }
    }
    AscendingListsEqual(l1, l2);
  }

  /**
   * The drop decision is the head of the candidate list: no target exactly when
   * the list is empty, and otherwise its first element.
   */
  lemma SnapTargetIsFirstCandidate(list: seq<int>, target: Option<nat>, spheres: seq<SphereState>, excludeIndex: int,
                                   draggedPos: Vec3, playerPos: Vec3, transform: Vec3 -> Vec3, sqrt: real -> real)
    requires IsSnapCandidateList(list, spheres, excludeIndex, draggedPos, playerPos, transform, sqrt)
    requires target.Some? ==> IsFirstSnapTarget(spheres, target.value, excludeIndex, draggedPos, playerPos, transform, sqrt)
    requires target.None? <==>
      forall i :: 0 <= i < |spheres| ==> !IsSnapTarget(spheres, i, excludeIndex, draggedPos, playerPos, transform, sqrt)
    ensures target == if list == [] then None else Some(list[0])
  {
    assert target.Some? ==> target.value in list;
    if list == [] {
    } else {
      var t := list[0];
      assert IsSnapTarget(spheres, t, excludeIndex, draggedPos, playerPos, transform, sqrt);
      var r := target.value;
      assert r in list;
      var k :| 0 <= k < |list| && list[k] == r;
      assert t <= r;
      assert !(t < r);
    }
  }

  /** A gray marker on the front side seen exactly along the line from the eye through the dragged marker is a snap target. */
  lemma MarkerOnSightLineIsSnapTarget(spheres: seq<SphereState>, i: int, excludeIndex: int, draggedPos: Vec3,
                                      playerPos: Vec3, transform: Vec3 -> Vec3, sqrt: real -> real, t: real)
    requires sqrt(0.0) == 0.0
    requires 0 <= i < |spheres| && i != excludeIndex && spheres[i].isAttached && !spheres[i].isYellow
    requires Length(sqrt, Sub(draggedPos, playerPos)) >= Epsilon
    requires transform(spheres[i].position) == Add(playerPos, Scale(Sub(draggedPos, playerPos), t))
    requires transform(spheres[i].position).x >= 0.0
    ensures IsSnapTarget(spheres, i, excludeIndex, draggedPos, playerPos, transform, sqrt)
  {
    PointOnLineDistanceZero(sqrt, playerPos, draggedPos, t);
  }

  // ---------------------------------------------------------------------------
  // The drag-and-drop state machine

  /** `spheres.erase(spheres.begin() + i)`: element `i` goes, the later ones move down by one. */
  function Erase<T>(s: seq<T>, i: nat): (r: seq<T>)
    requires i < |s|
    ensures |r| == |s| - 1
    ensures forall j :: 0 <= j < i ==> r[j] == s[j]
    ensures forall j :: i <= j < |r| ==> r[j] == s[j + 1]
  {
    s[..i] + s[i + 1..]
  }

  /**
   * The drag session's link to the marker array: while dragging, the index is
   * in range and names a detached yellow marker; otherwise it is -1.
   */
  predicate DragIndexValid(spheres: seq<SphereState>, isDragging: bool, index: int) {
    if isDragging then 0 <= index < |spheres| && !spheres[index].isAttached && spheres[index].isYellow
    else index == -1
  }

  /**
   * A pick of an attached yellow marker reads `gridPositions` at the marker's
   * array index: that index must be in range for the marker the ray would pick.
   */
  predicate PickSlotInRange(spheres: seq<SphereState>, gridPositions: seq<Vec3>, ray: Ray,
                            transform: Vec3 -> Vec3, engine: Engine)
  {
    forall i ::
      (0 <= i < |spheres| && IsFirstClickable(spheres, i, ray, transform, engine)
       && spheres[i].isYellow && spheres[i].isAttached) ==> i < |gridPositions|
  }

  /**
   * Where a picked marker is put: the point where the line from the eye through
   * its world position meets the drag plane, or, if that line is parallel to the
   * plane, its stored position with x set to the plane's. Either way on the plane.
   */
  function DragStartPosition(s: SphereState, eye: Vec3, transform: Vec3 -> Vec3): (p: Vec3)
    ensures p.x == Config.DragPlaneX
    ensures GetLinePlaneIntersection(eye, WorldPosition(s, transform), Config.DragPlaneX).Some? ==>
      OnLine(p, eye, Sub(WorldPosition(s, transform), eye))
    ensures GetLinePlaneIntersection(eye, WorldPosition(s, transform), Config.DragPlaneX).None? ==>
      p.y == s.position.y && p.z == s.position.z
  {
    match GetLinePlaneIntersection(eye, WorldPosition(s, transform), Config.DragPlaneX)
    case Some(q) => q
    case None => s.position.(x := Config.DragPlaneX)
  }

  /**
   * The markers after a pick of marker `c`: it moves to its drag start position
   * and is detached, and if it was attached a gray attached placeholder for slot
   * `c` is appended. No other marker changes.
   */
  function PickedArray(spheres: seq<SphereState>, c: nat, eye: Vec3, transform: Vec3 -> Vec3,
                       gridPositions: seq<Vec3>): (r: seq<SphereState>)
    requires c < |spheres|
    requires spheres[c].isAttached ==> c < |gridPositions|
    ensures |r| == |spheres| + (if spheres[c].isAttached then 1 else 0)
    ensures r[c] == spheres[c].(position := DragStartPosition(spheres[c], eye, transform), isAttached := false)
    ensures forall i :: 0 <= i < |spheres| && i != c ==> r[i] == spheres[i]
    ensures spheres[c].isAttached ==> r[|spheres|] == SphereState(gridPositions[c], true, false, c)
  {
    var moved := spheres[c].(position := DragStartPosition(spheres[c], eye, transform), isAttached := false);
    if spheres[c].isAttached then spheres[c := moved] + [SphereState(gridPositions[c], true, false, c)]
    else spheres[c := moved]
  }

  /**
   * The markers after one held frame: marker `d` is pinned to the drag plane and
   * moves in y and z by the pointer's motion from `last` to `current`. No other
   * marker changes.
   */
  function HeldArray(spheres: seq<SphereState>, d: nat, last: Vec3, current: Vec3): (r: seq<SphereState>)
    requires d < |spheres|
    ensures |r| == |spheres|
    ensures r[d] == spheres[d].(position := Vec3(Config.DragPlaneX, spheres[d].position.y + (current.y - last.y),
                                                 spheres[d].position.z + (current.z - last.z)))
    ensures forall i :: 0 <= i < |spheres| && i != d ==> r[i] == spheres[i]
  {
    var p := spheres[d].position;
    var delta := Sub(current, last);
    spheres[d := spheres[d].(position := Vec3(Config.DragPlaneX, p.y + delta.y, p.z + delta.z))]
  }

  /** A held frame without pointer motion leaves a marker that is already on the drag plane where it is. */
  lemma HoldWithoutMotion(spheres: seq<SphereState>, d: nat, q: Vec3)
    requires d < |spheres| && spheres[d].position.x == Config.DragPlaneX
    ensures HeldArray(spheres, d, q, q) == spheres
  {
  }

  /** The markers after a frame's hold stage: one held frame while the button is pressed, unchanged otherwise. */
  function HoldStage(spheres: seq<SphereState>, d: nat, last: Vec3, input: FrameInput): seq<SphereState>
    requires d < |spheres|
  {
    if input.mousePressed then HeldArray(spheres, d, last, GetMouseWorldPosition(input.ray, MouseRayDistance, true))
    else spheres
  }

  /**
   * The markers `after` a release of marker `d` are the drop's outcome on
   * `before`: unchanged when there is no snap target, and otherwise the first
   * snap target turned yellow with `d` erased.
   */
  predicate DropOutcome(before: seq<SphereState>, d: int, after: seq<SphereState>, playerPos: Vec3,
                        transform: Vec3 -> Vec3, sqrt: real -> real)
    requires 0 <= d < |before|
  {
    && ((forall i :: 0 <= i < |before| ==> !IsSnapTarget(before, i, d, before[d].position, playerPos, transform, sqrt))
        ==> after == before)
    && (forall t :: 0 <= t < |before| && IsFirstSnapTarget(before, t, d, before[d].position, playerPos, transform, sqrt) ==>
          after == Erase(before[t := before[t].(isYellow := true)], d))
  }

  /**
   * What a frame's release stage leaves, given the markers `held` after the hold
   * stage and the dragged index `d`: on button-up the session ends and the
   * markers are the drop's outcome; otherwise the session and the markers stay.
   */
  predicate ReleaseOutcome(held: seq<SphereState>, d: int, input: FrameInput, transform: Vec3 -> Vec3, sqrt: real -> real,
                           after: seq<SphereState>, isDragging: bool, index: int)
    requires 0 <= d < |held|
  {
    if input.mouseUp then !isDragging && index == -1 && DropOutcome(held, d, after, input.eyePosition, transform, sqrt)
    else isDragging && index == d && after == held
  }

  /** The search's answer fed to the drop gives the drop outcome for the first snap target. */
  lemma FoundTargetGivesDropOutcome(before: seq<SphereState>, d: int, target: Option<nat>, after: seq<SphereState>,
                                    playerPos: Vec3, transform: Vec3 -> Vec3, sqrt: real -> real)
    requires 0 <= d < |before|
    requires target.Some? ==> IsFirstSnapTarget(before, target.value, d, before[d].position, playerPos, transform, sqrt)
    requires target.None? <==>
      forall i :: 0 <= i < |before| ==> !IsSnapTarget(before, i, d, before[d].position, playerPos, transform, sqrt)
    requires target.None? ==> after == before
    requires target.Some? ==> after == Erase(before[target.value := before[target.value].(isYellow := true)], d)
    ensures DropOutcome(before, d, after, playerPos, transform, sqrt)
  {
    forall t | IsFirstSnapTarget(before, t, d, before[d].position, playerPos, transform, sqrt)
      ensures after == Erase(before[t := before[t].(isYellow := true)], d)
    {
      assert IsSnapTarget(before, t, d, before[d].position, playerPos, transform, sqrt);
      FirstSnapTargetUnique(before, t, target.value, d, before[d].position, playerPos, transform, sqrt);
    }
  }

  /**
   * Button-down while idle: the first clickable marker, if yellow, becomes the
   * dragged one. It moves onto the drag plane; if it was attached it is
   * detached and a gray attached placeholder for its slot is appended.
   */
  method Pick(spheres: seq<SphereState>, dragState: DragState, input: FrameInput, transform: Vec3 -> Vec3,
              gridPositions: seq<Vec3>, engine: Engine) returns (spheres': seq<SphereState>, clicked: Option<nat>)
    requires !dragState.isDragging && DragIndexValid(spheres, false, dragState.draggedSphereIndex)
    requires PickSlotInRange(spheres, gridPositions, input.ray, transform, engine)
    modifies dragState
    ensures clicked.Some? ==> IsFirstClickable(spheres, clicked.value, input.ray, transform, engine)
    ensures clicked.None? <==> forall i :: 0 <= i < |spheres| ==> !IsClickable(spheres[i], input.ray, transform, engine)
    ensures !(clicked.Some? && spheres[clicked.value].isYellow) ==>
      && spheres' == spheres
      && !dragState.isDragging
      && dragState.draggedSphereIndex == old(dragState.draggedSphereIndex)
      && dragState.lastMouseWorldPos == old(dragState.lastMouseWorldPos)
      && dragState.snapCandidates == old(dragState.snapCandidates)
    ensures clicked.Some? && IsFirstClickable(spheres, clicked.value, input.ray, transform, engine)
            && spheres[clicked.value].isYellow ==>
      var c := clicked.value;
      && dragState.isDragging
      && dragState.draggedSphereIndex == c
      && dragState.lastMouseWorldPos == GetMouseWorldPosition(input.ray, MouseRayDistance, true)
      && dragState.snapCandidates == old(dragState.snapCandidates)
      && spheres' == PickedArray(spheres, c, input.eyePosition, transform, gridPositions)
    ensures DragIndexValid(spheres', dragState.isDragging, dragState.draggedSphereIndex)
  {
    spheres' := spheres;
    clicked := CheckSphereClick(input.ray, spheres, transform, engine);
    if clicked.Some? && spheres[clicked.value].isYellow {
      var c := clicked.value;
      dragState.isDragging := true;
      dragState.draggedSphereIndex := c;
      var originalSpherePos := WorldPosition(spheres[c], transform);
      var intersection := GetLinePlaneIntersection(input.eyePosition, originalSpherePos, Config.DragPlaneX);
      if intersection.Some? {
        spheres' := spheres'[c := spheres'[c].(position := intersection.value)];
      } else {
        spheres' := spheres'[c := spheres'[c].(position := spheres'[c].position.(x := Config.DragPlaneX))];
      }
      dragState.initialDragPosition := spheres'[c].position;
      dragState.lastMouseWorldPos := GetMouseWorldPosition(input.ray, MouseRayDistance, true);
      if spheres'[c].isAttached {
        spheres' := spheres'[c := spheres'[c].(isAttached := false)];
        spheres' := spheres' + [SphereState(gridPositions[c], true, false, c)];
      }
    }
  }

  /**
   * Button held while dragging: the dragged marker is pinned to the drag plane
   * and moves in y and z by the pointer's motion since the last frame.
   */
  method Hold(spheres: seq<SphereState>, dragState: DragState, input: FrameInput) returns (spheres': seq<SphereState>)
    requires dragState.isDragging && DragIndexValid(spheres, true, dragState.draggedSphereIndex)
    modifies dragState`lastMouseWorldPos
    ensures
      var current := GetMouseWorldPosition(input.ray, MouseRayDistance, true);
      && spheres' == HeldArray(spheres, dragState.draggedSphereIndex, old(dragState.lastMouseWorldPos), current)
      && dragState.lastMouseWorldPos == current
    ensures DragIndexValid(spheres', true, dragState.draggedSphereIndex)
  {
    var currentMouseWorldPos := GetMouseWorldPosition(input.ray, MouseRayDistance, true);
    var delta := Sub(currentMouseWorldPos, dragState.lastMouseWorldPos);
    var d := dragState.draggedSphereIndex;
    var spherePos := spheres[d].position;
    spherePos := spherePos.(y := spherePos.y + delta.y);
    spherePos := spherePos.(z := spherePos.z + delta.z);
    spherePos := spherePos.(x := Config.DragPlaneX);
    spheres' := spheres[d := spheres[d].(position := spherePos)];
    dragState.lastMouseWorldPos := currentMouseWorldPos;
  }

  /**
   * Button-up while dragging: with a snap target, the target turns yellow and
   * the dragged marker is erased; without one the markers stay as they are.
   * Either way the session ends.
   */
  method Drop(spheres: seq<SphereState>, dragState: DragState, snapTarget: Option<nat>) returns (spheres': seq<SphereState>)
    requires dragState.isDragging && DragIndexValid(spheres, true, dragState.draggedSphereIndex)
    requires snapTarget.Some? ==> snapTarget.value < |spheres| && snapTarget.value != dragState.draggedSphereIndex
    modifies dragState`isDragging, dragState`draggedSphereIndex
    ensures !dragState.isDragging && dragState.draggedSphereIndex == -1
    ensures snapTarget.None? ==> spheres' == spheres
    ensures snapTarget.Some? ==>
      var t := snapTarget.value;
      spheres' == Erase(spheres[t := spheres[t].(isYellow := true)], old(dragState.draggedSphereIndex))
    ensures snapTarget.Some? ==>
      var t := snapTarget.value;
      && |spheres'| == |spheres| - 1
      && spheres'[if t < old(dragState.draggedSphereIndex) then t else t - 1] == spheres[t].(isYellow := true)
    ensures DragIndexValid(spheres', false, -1)
  {
    spheres' := spheres;
    if snapTarget.Some? {
      spheres' := spheres'[snapTarget.value := spheres'[snapTarget.value].(isYellow := true)];
      spheres' := Erase(spheres', dragState.draggedSphereIndex);
    }
    dragState.isDragging := false;
    dragState.draggedSphereIndex := -1;
  }

  /** The feedback list: every snap target while dragging, empty otherwise. */
  method RefreshSnapCandidates(spheres: seq<SphereState>, dragState: DragState, playerPos: Vec3,
                               transform: Vec3 -> Vec3, sqrt: real -> real)
    requires DragIndexValid(spheres, dragState.isDragging, dragState.draggedSphereIndex)
    modifies dragState`snapCandidates
    ensures !dragState.isDragging ==> dragState.snapCandidates == []
    ensures dragState.isDragging ==>
      var d := dragState.draggedSphereIndex;
      IsSnapCandidateList(dragState.snapCandidates, spheres, d, spheres[d].position, playerPos, transform, sqrt)
  {
    if dragState.isDragging {
      var d := dragState.draggedSphereIndex;
      dragState.snapCandidates := GetSnapCandidates(spheres[d].position, spheres, d, playerPos, transform, sqrt);
    } else {
      dragState.snapCandidates := [];
    }
  }

  /**
   * The pick and hold stages of a frame: pick on button-down while idle, then
   * one held frame while dragging with the button pressed. In the frame of a
   * pick the pointer has not moved since the pick read it, so that hold leaves
   * the picked array as it is.
   */
  method PickAndHold(spheres: seq<SphereState>, dragState: DragState, input: FrameInput, transform: Vec3 -> Vec3,
                     gridPositions: seq<Vec3>, engine: Engine) returns (held: seq<SphereState>)
    requires DragIndexValid(spheres, dragState.isDragging, dragState.draggedSphereIndex)
    requires input.mouseDown && !dragState.isDragging ==>
      PickSlotInRange(spheres, gridPositions, input.ray, transform, engine)
    modifies dragState
    ensures DragIndexValid(held, dragState.isDragging, dragState.draggedSphereIndex)
    ensures dragState.snapCandidates == old(dragState.snapCandidates)
    ensures old(dragState.isDragging) ==>
      var d := old(dragState.draggedSphereIndex);
      && dragState.isDragging
      && dragState.draggedSphereIndex == d
      && held == HoldStage(spheres, d, old(dragState.lastMouseWorldPos), input)
      && dragState.lastMouseWorldPos == if input.mousePressed then GetMouseWorldPosition(input.ray, MouseRayDistance, true)
                                       else old(dragState.lastMouseWorldPos)
    ensures !old(dragState.isDragging) && input.mouseDown ==>
      forall c :: IsFirstClickable(spheres, c, input.ray, transform, engine) && spheres[c].isYellow ==>
        && dragState.isDragging
        && dragState.draggedSphereIndex == c
        && held == PickedArray(spheres, c, input.eyePosition, transform, gridPositions)
        && dragState.lastMouseWorldPos == GetMouseWorldPosition(input.ray, MouseRayDistance, true)
    ensures !old(dragState.isDragging)
            && (!input.mouseDown
                || forall c :: IsFirstClickable(spheres, c, input.ray, transform, engine) ==> !spheres[c].isYellow) ==>
      && held == spheres
      && !dragState.isDragging
      && dragState.draggedSphereIndex == old(dragState.draggedSphereIndex)
      && dragState.lastMouseWorldPos == old(dragState.lastMouseWorldPos)
  {
    held := spheres;
    if input.mouseDown {
      if !dragState.isDragging {
        var clicked;
        held, clicked := Pick(held, dragState, input, transform, gridPositions, engine);
        if clicked.Some? && spheres[clicked.value].isYellow {
          forall c | IsFirstClickable(spheres, c, input.ray, transform, engine)
            ensures c == clicked.value
          {
            FirstClickableUnique(spheres, c, clicked.value, input.ray, transform, engine);
          }
          HoldWithoutMotion(held, clicked.value, dragState.lastMouseWorldPos);
        }
      }
    }
    if dragState.isDragging && input.mousePressed {
      held := Hold(held, dragState, input);
    }
  }

  /**
   * One frame of drag and drop: pick on button-down while idle, hold while
   * dragging with the button pressed, drop on button-up while dragging, then
   * refresh the feedback list. `transform` is the cylinder's current rotation.
   */
  method ProcessDragAndDrop(spheres: seq<SphereState>, dragState: DragState, input: FrameInput,
                            transform: Vec3 -> Vec3, gridPositions: seq<Vec3>, engine: Engine)
    returns (spheres': seq<SphereState>)
    requires DragIndexValid(spheres, dragState.isDragging, dragState.draggedSphereIndex)
    requires input.mouseDown && !dragState.isDragging ==>
      PickSlotInRange(spheres, gridPositions, input.ray, transform, engine)
    modifies dragState
    ensures DragIndexValid(spheres', dragState.isDragging, dragState.draggedSphereIndex)
    ensures !dragState.isDragging ==> dragState.snapCandidates == []
    ensures dragState.isDragging ==>
      var d := dragState.draggedSphereIndex;
      IsSnapCandidateList(dragState.snapCandidates, spheres', d, spheres'[d].position, input.eyePosition, transform, engine.sqrt)
    ensures !old(dragState.isDragging) && !input.mouseDown ==> spheres' == spheres && !dragState.isDragging
    ensures old(dragState.isDragging) && !input.mouseUp ==>
      && dragState.isDragging
      && dragState.draggedSphereIndex == old(dragState.draggedSphereIndex)
      && |spheres'| == |spheres|
    ensures old(dragState.isDragging) && !input.mouseUp && !input.mousePressed ==> spheres' == spheres
    ensures old(dragState.isDragging) && input.mouseUp ==>
      !dragState.isDragging && (|spheres'| == |spheres| || |spheres'| == |spheres| - 1)
    ensures !old(dragState.isDragging) && input.mouseDown ==>
      forall c :: IsFirstClickable(spheres, c, input.ray, transform, engine) && spheres[c].isYellow ==>
        ReleaseOutcome(PickedArray(spheres, c, input.eyePosition, transform, gridPositions), c, input, transform,
                       engine.sqrt, spheres', dragState.isDragging, dragState.draggedSphereIndex)
    ensures !old(dragState.isDragging) && input.mouseDown
            && (forall c :: IsFirstClickable(spheres, c, input.ray, transform, engine) ==> !spheres[c].isYellow) ==>
      spheres' == spheres && !dragState.isDragging
    ensures old(dragState.isDragging) ==>
      var d := old(dragState.draggedSphereIndex);
      ReleaseOutcome(HoldStage(spheres, d, old(dragState.lastMouseWorldPos), input), d, input, transform, engine.sqrt,
                     spheres', dragState.isDragging, dragState.draggedSphereIndex)
    ensures old(dragState.isDragging) ==>
      dragState.lastMouseWorldPos == if input.mousePressed then GetMouseWorldPosition(input.ray, MouseRayDistance, true)
                                   else old(dragState.lastMouseWorldPos)
    ensures !old(dragState.isDragging) && !input.mouseDown ==> dragState.lastMouseWorldPos == old(dragState.lastMouseWorldPos)
    ensures !old(dragState.isDragging) && input.mouseDown ==>
      forall c :: IsFirstClickable(spheres, c, input.ray, transform, engine) && spheres[c].isYellow ==>
        dragState.lastMouseWorldPos == GetMouseWorldPosition(input.ray, MouseRayDistance, true)
    ensures !old(dragState.isDragging) && input.mouseDown
            && (forall c :: IsFirstClickable(spheres, c, input.ray, transform, engine) ==> !spheres[c].isYellow) ==>
      dragState.lastMouseWorldPos == old(dragState.lastMouseWorldPos)
  {
    var playerPos := input.eyePosition;
    spheres' := PickAndHold(spheres, dragState, input, transform, gridPositions, engine);
    ghost var held := spheres';
    if dragState.isDragging && input.mouseUp {
      var d := dragState.draggedSphereIndex;
      var snapTarget := FindSnapTarget(spheres'[d].position, spheres', d, playerPos, transform, engine.sqrt);
      spheres' := Drop(spheres', dragState, snapTarget);
      FoundTargetGivesDropOutcome(held, d, snapTarget, spheres', playerPos, transform, engine.sqrt);
    }
    RefreshSnapCandidates(spheres', dragState, playerPos, transform, engine.sqrt);
  }

  // ---------------------------------------------------------------------------
  // Rotation

  /** The automatic rotation of one frame: `RotationSpeedDeg` degrees per second. */
  function AutoRotationStep(deltaTime: real): real {
    deltaTime * ToRadians(Config.RotationSpeedDeg)
  }

  /** The rotation the pointer's vertical motion contributes. */
  function MouseRotationStep(cursorDeltaY: int): real {
    cursorDeltaY as real * Config.MouseRotationFactor * Pi / 180.0
  }

  /**
   * The cylinder's new angle: the automatic step only when auto-rotation is on,
   * the pointer step only while the button is held and nothing is dragged.
   */
  method ProcessRotation(rotationAngle: real, isAutoRotationEnabled: bool, isDragging: bool,
                         mousePressed: bool, deltaTime: real, cursorDeltaY: int) returns (angle: real)
    ensures angle == rotationAngle
                     + (if isAutoRotationEnabled then AutoRotationStep(deltaTime) else 0.0)
                     + (if mousePressed && !isDragging then MouseRotationStep(cursorDeltaY) else 0.0)
    ensures !isAutoRotationEnabled && (isDragging || !mousePressed) ==> angle == rotationAngle
  {
    angle := rotationAngle;
    if isAutoRotationEnabled {
      angle := angle + AutoRotationStep(deltaTime);
    }
    if mousePressed && !isDragging {
      angle := angle + MouseRotationStep(cursorDeltaY);
    }
  }
}
