/**
 * The application's state and frame loop: the grid and markers built once at
 * start-up, then per frame the rotation update, drag and drop, and the
 * auto-rotation toggle button.
 */
module GameMain {
  import opened Vectors
  import opened Siv3D
  import Config
  import opened GeometryUtils
  import opened GameTypes
  import opened GameLogic

  /** The initial markers: one attached yellow marker per grid slot, slot `i` at index `i`. */
  method SpawnSpheres(gridPositions: seq<Vec3>) returns (spheres: seq<SphereState>)
    ensures |spheres| == |gridPositions|
    ensures forall i :: 0 <= i < |spheres| ==> spheres[i] == SphereState(gridPositions[i], true, true, i)
  {
    spheres := [];
    var i := 0;
    while i < |gridPositions|
      invariant 0 <= i <= |gridPositions|
      invariant |spheres| == i
      invariant forall j :: 0 <= j < i ==> spheres[j] == SphereState(gridPositions[j], true, true, j)
    {
      spheres := spheres + [SphereState(gridPositions[i], true, true, i)];
      i := i + 1;
    }
  }

  /** The state the frame loop carries from one frame to the next. */
  class Scene {
    const gridPositions: seq<Vec3>
    var spheres: seq<SphereState>
    var rotationAngle: real
    var isAutoRotationEnabled: bool
    const dragState: DragState

    /** The drag session's index stays linked to the marker array. */
    predicate Valid()
      reads this, dragState
    {
      DragIndexValid(spheres, dragState.isDragging, dragState.draggedSphereIndex)
    }

    /**
     * Start-up: the configured grid (20 columns by 8 rows), one attached yellow
     * marker per slot, angle zero, auto-rotation off, no drag session.
     */
    constructor (engine: Engine)
      ensures Valid() && fresh(dragState)
      ensures gridPositions == GridRows(CylinderPoints(engine.cos, engine.sin, Config.CylinderRadius, Config.CylinderHeight,
                                                       Config.GridUDiv, Config.GridVDiv, Config.GridMargin),
                                        Config.GridUDiv, Config.GridVDiv)
      ensures |gridPositions| == Config.GridUDiv * Config.GridVDiv
      ensures |spheres| == |gridPositions|
      ensures forall i :: 0 <= i < |spheres| ==> spheres[i] == SphereState(gridPositions[i], true, true, i)
      ensures rotationAngle == 0.0 && !isAutoRotationEnabled
      ensures !dragState.isDragging && dragState.snapCandidates == []
    {
      var grid := GenerateCylinderGridPositions(engine.cos, engine.sin, Config.CylinderRadius, Config.CylinderHeight,
                                                Config.GridUDiv, Config.GridVDiv, Config.GridMargin);
      var initial := SpawnSpheres(grid);
      gridPositions := grid;
      spheres := initial;
      rotationAngle := 0.0;
      isAutoRotationEnabled := false;
      dragState := new DragState();
    }

    /**
     * One frame: the transform is taken from the angle at the start of the
     * frame; the angle is then updated, drag and drop runs under that
     * transform, and a click on the button flips auto-rotation.
     */
    method Frame(input: FrameInput, engine: Engine)
      requires Valid()
      requires input.mouseDown && !dragState.isDragging ==>
        PickSlotInRange(spheres, gridPositions, input.ray, engine.rotateZ(rotationAngle), engine)
      modifies this, dragState
      ensures Valid()
      ensures rotationAngle == old(rotationAngle)
                               + (if old(isAutoRotationEnabled) then AutoRotationStep(input.deltaTime) else 0.0)
                               + (if input.mousePressed && !old(dragState.isDragging)
                                  then MouseRotationStep(input.cursorDeltaY) else 0.0)
      ensures isAutoRotationEnabled == (old(isAutoRotationEnabled) != input.buttonClicked)
      ensures !dragState.isDragging ==> dragState.snapCandidates == []
      ensures dragState.isDragging ==>
        var d := dragState.draggedSphereIndex;
        IsSnapCandidateList(dragState.snapCandidates, spheres, d, spheres[d].position, input.eyePosition,
                            engine.rotateZ(old(rotationAngle)), engine.sqrt)
      ensures !old(dragState.isDragging) && !input.mouseDown ==> spheres == old(spheres) && !dragState.isDragging
      ensures !old(dragState.isDragging) && input.mouseDown ==>
        var transform := engine.rotateZ(old(rotationAngle));
        forall c :: IsFirstClickable(old(spheres), c, input.ray, transform, engine) && old(spheres)[c].isYellow ==>
          ReleaseOutcome(PickedArray(old(spheres), c, input.eyePosition, transform, gridPositions), c, input, transform,
                         engine.sqrt, spheres, dragState.isDragging, dragState.draggedSphereIndex)
      ensures !old(dragState.isDragging) && input.mouseDown
              && (forall c :: IsFirstClickable(old(spheres), c, input.ray, engine.rotateZ(old(rotationAngle)), engine)
                              ==> !old(spheres)[c].isYellow) ==>
        spheres == old(spheres) && !dragState.isDragging
      ensures old(dragState.isDragging) ==>
        var d := old(dragState.draggedSphereIndex);
        ReleaseOutcome(HoldStage(old(spheres), d, old(dragState.lastMouseWorldPos), input), d, input,
                       engine.rotateZ(old(rotationAngle)), engine.sqrt, spheres, dragState.isDragging,
                       dragState.draggedSphereIndex)
      ensures old(dragState.isDragging) ==>
        dragState.lastMouseWorldPos == if input.mousePressed then GetMouseWorldPosition(input.ray, MouseRayDistance, true)
                                     else old(dragState.lastMouseWorldPos)
      ensures !old(dragState.isDragging) && !input.mouseDown ==> dragState.lastMouseWorldPos == old(dragState.lastMouseWorldPos)
      ensures !old(dragState.isDragging) && input.mouseDown ==>
        forall c :: IsFirstClickable(old(spheres), c, input.ray, engine.rotateZ(old(rotationAngle)), engine) && old(spheres)[c].isYellow ==>
          dragState.lastMouseWorldPos == GetMouseWorldPosition(input.ray, MouseRayDistance, true)
      ensures !old(dragState.isDragging) && input.mouseDown
              && (forall c :: IsFirstClickable(old(spheres), c, input.ray, engine.rotateZ(old(rotationAngle)), engine) ==> !old(spheres)[c].isYellow) ==>
        dragState.lastMouseWorldPos == old(dragState.lastMouseWorldPos)
    {
      var transform := engine.rotateZ(rotationAngle);
      rotationAngle := ProcessRotation(rotationAngle, isAutoRotationEnabled, dragState.isDragging,
                                       input.mousePressed, input.deltaTime, input.cursorDeltaY);
      spheres := ProcessDragAndDrop(spheres, dragState, input, transform, gridPositions, engine);
      if input.buttonClicked {
        isAutoRotationEnabled := !isAutoRotationEnabled;
      }
    }
  }
}
