/**
 * Sesion-10/04-Animaciones-al-Click: the hover slot is refreshed by its own
 * `requestAnimationFrame` loop (`animate`), and a click while hovering asks
 * the tween library to spin the hovered mesh two full turns about y.
 * Each `animate` callback is one atomic step; the render loop `tick` does
 * not touch the slot.
 */
module ClickSpin {
  import opened Scene
  import Hover

  /** Math.PI * 4 radians, in degrees. */
  const SpinDegrees: int := 720

  /** A requested tween: rotate `target` about y until it reaches `toDegrees`. */
  datatype Spin = Spin(target: TargetId, toDegrees: int)

  class SpinScene {
    var currentIntersect: Option<TargetId>

    constructor ()
      ensures currentIntersect == None
    {
      currentIntersect := None;
    }

    /** One `animate` callback, given the ray query's hits, nearest first. */
    method Animate(intersects: seq<TargetId>) returns (trace: Option<Trace>)
      modifies this
      ensures Hover.Step(currentIntersect, trace) == Hover.Track(old(currentIntersect), intersects)
    {
      trace := None;
      if |intersects| > 0 {
        if currentIntersect == None {
          trace := Some(MouseEnter);
        }
        currentIntersect := Some(intersects[0]);
      } else {
        if currentIntersect != None {
          trace := Some(MouseLeave);
        }
        currentIntersect := None;
      }
    }

    /**
     * The `click` listener. `rotationY` is each mesh's y rotation as the
     * tween library reports it at the moment of the click (possibly part-way
     * through an earlier spin). The result is the tween requested, if any:
     * it names the hovered mesh only, and its end value is two turns beyond
     * where that mesh stands now.
     */
    method Click(rotationY: TargetId -> int) returns (request: Option<Spin>)
      ensures currentIntersect == None ==> request == None
      ensures currentIntersect != None ==> request.Some? && request.value.target == currentIntersect.value
      ensures request.Some? ==> request.value.toDegrees - rotationY(request.value.target) == SpinDegrees
    {
      request := None;
      if currentIntersect != None {
        var hovered := currentIntersect.value;
        request := Some(Spin(hovered, rotationY(hovered) + SpinDegrees));
      }
    }
  }
}
