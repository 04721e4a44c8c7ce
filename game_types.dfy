/** The marker records the interaction core works on. */
module GameTypes {
  import opened Vectors

  /**
   * One marker ("sphere"): its position (cylinder-local while attached,
   * world-space once detached), whether it follows the cylinder's rotation,
   * whether it is yellow (pickable and filled) or gray (an empty slot's
   * placeholder), and the grid slot it was spawned from (-1 if none).
   * The constructor's defaults are the source's: attached, yellow, no slot.
   */
  datatype SphereState = SphereState(
    position: Vec3,
    isAttached: bool := true,
    isYellow: bool := true,
    originalIndex: int := -1)

  /** `SphereState(pos)` is an attached yellow marker with no slot. */
  lemma SphereStateDefaults(pos: Vec3)
    ensures SphereState(pos).position == pos
    ensures SphereState(pos).isAttached && SphereState(pos).isYellow
    ensures SphereState(pos).originalIndex == -1
  {
  }

  /** The full-argument form stores each argument unchanged. */
  lemma SphereStateStoresArguments(pos: Vec3, attached: bool, yellow: bool, index: int)
    ensures var s := SphereState(pos, attached, yellow, index);
      s.position == pos && s.isAttached == attached && s.isYellow == yellow && s.originalIndex == index
  {
  }

  /**
   * The drag session. `initialDragPosition` is written at pick-up and never
   * read, so it is ghost; `snapCandidates` is only for feedback display.
   */
  class DragState {
    var isDragging: bool
    var draggedSphereIndex: int
    var lastMouseWorldPos: Vec3
    ghost var initialDragPosition: Vec3
    var snapCandidates: seq<int>

    /** A new session: not dragging, no index, no candidates. */
    constructor ()
      ensures !isDragging && draggedSphereIndex == -1 && snapCandidates == []
    {
      isDragging := false;
      draggedSphereIndex := -1;
      snapCandidates := [];
    }
  }
}
