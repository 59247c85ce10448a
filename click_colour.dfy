/**
 * Sesion-10/02-Configuracion-de-clicks: one wireframe sphere (`object1`)
 * that turns blue when the pointer enters it, yellow when it is clicked
 * while hovered, and back to orange on every frame in which the ray hits
 * nothing.
 */
module ClickColour {
  import opened Scene
  import Hover

  /** The script's mutable state: the hover slot and object1's colour. */
  datatype State = State(currentIntersect: Option<TargetId>, object1: Colour)

  /** Before the first frame: nothing hovered, the sphere orange. */
  const Initial := State(None, Orange)

  /** Reachable states: the sphere is orange exactly when nothing is hovered. */
  ghost predicate Inv(s: State) {
    s.currentIntersect == None <==> s.object1 == Orange
  }

  /** The state after one frame and the console line it wrote. */
  datatype Frame = Frame(state: State, trace: Option<Trace>)

  /**
   * One `tick`. The orange reset sits outside the "was hovering" guard, so
   * it happens on every frame without hits, not only on the leave edge.
   */
  function AfterTick(s: State, intersects: seq<TargetId>): (r: Frame)
    ensures r.state.currentIntersect == Hover.Track(s.currentIntersect, intersects).current
    ensures r.trace == Hover.Track(s.currentIntersect, intersects).trace
    ensures intersects == [] ==> r.state.object1 == Orange
    ensures r.trace == Some(MouseEnter) ==> r.state.object1 == Blue
    ensures intersects != [] && s.currentIntersect != None ==> r.state.object1 == s.object1
  {
    var step := Hover.Track(s.currentIntersect, intersects);
    if |intersects| > 0 then
      Frame(State(step.current, if s.currentIntersect == None then Blue else s.object1), step.trace)
    else
      Frame(State(step.current, Orange), step.trace)
  }

  /** The `click` listener: only a click while hovering paints the sphere. */
  function AfterClick(s: State): (r: State)
    ensures s.currentIntersect == None ==> r == s
    ensures s.currentIntersect != None ==> r.object1 == Yellow && r.currentIntersect == s.currentIntersect
  {
    if s.currentIntersect != None then s.(object1 := Yellow) else s
  }

  /** The state after a series of frames, first frame first. */
  function TickRun(s: State, frames: seq<seq<TargetId>>): State
    decreases |frames|
  {
    if frames == [] then s else TickRun(AfterTick(s, frames[0]).state, frames[1..])
  }

  /** The hover slot of a run is exactly the one the shared detector computes. */
  lemma {:induction false} TickRunTracks(s: State, frames: seq<seq<TargetId>>)
    ensures TickRun(s, frames).currentIntersect == Hover.TrackRun(s.currentIntersect, frames).final
    decreases |frames|
  {
    if frames != [] {
      TickRunTracks(AfterTick(s, frames[0]).state, frames[1..]);
    }
  }

  /** Every frame and every click keep the colour tied to the hover slot. */
  lemma InvPreserved(s: State, intersects: seq<TargetId>)
    requires Inv(s)
    ensures Inv(AfterTick(s, intersects).state)
    ensures Inv(AfterClick(s))
  {
  }

  /** From the initial state, no sequence of frames breaks the invariant. */
  lemma {:induction false} InvRun(s: State, frames: seq<seq<TargetId>>)
    requires Inv(s)
    ensures Inv(TickRun(s, frames))
    decreases |frames|
  {
    if frames != [] {
      InvPreserved(s, frames[0]);
      InvRun(AfterTick(s, frames[0]).state, frames[1..]);
    }
  }

  /**
   * Yellow set by a click survives any number of frames that keep hitting
   * something, and the first frame without hits turns the sphere orange.
   */
  lemma {:induction false} ClickedYellowPersists(s: State, frames: seq<seq<TargetId>>)
    requires s.currentIntersect != None && s.object1 == Yellow
    requires Hover.AllHit(frames)
    ensures TickRun(s, frames).object1 == Yellow
    ensures TickRun(s, frames).currentIntersect != None
    ensures AfterTick(TickRun(s, frames), []).state.object1 == Orange
    decreases |frames|
  {
    if frames != [] {
      assert Hover.AllHit(frames[1..]) by {
        forall i | 0 <= i < |frames[1..]| ensures frames[1..][i] != [] {
          assert frames[1..][i] == frames[i + 1];
        }
      }
      ClickedYellowPersists(AfterTick(s, frames[0]).state, frames[1..]);
    }
  }

  /** The script's module-level variables and its two event handlers. */
  class ClickScene {
    var currentIntersect: Option<TargetId>
    var object1Colour: Colour

    function Snapshot(): State
      reads this
    {
      State(currentIntersect, object1Colour)
    }

    ghost predicate Valid()
      reads this
    {
      Inv(Snapshot())
    }

    constructor ()
      ensures Snapshot() == Initial && Valid()
    {
      currentIntersect := None;
      object1Colour := Orange;
    }

    /** One frame of `tick`, given the ray query's hits, nearest first. */
    method Tick(intersects: seq<TargetId>) returns (trace: Option<Trace>)
      requires Valid()
      modifies this
      ensures Valid()
      ensures Frame(Snapshot(), trace) == AfterTick(old(Snapshot()), intersects)
    {
      trace := None;
      if |intersects| > 0 {
        if currentIntersect == None {
          trace := Some(MouseEnter);
          object1Colour := Blue;
        }
        currentIntersect := Some(intersects[0]);
      } else {
        if currentIntersect != None {
          trace := Some(MouseLeave);
        }
        object1Colour := Orange;
        currentIntersect := None;
      }
    }

    /** The `click` listener. */
    method Click()
      requires Valid()
      modifies this
      ensures Valid()
      ensures Snapshot() == AfterClick(old(Snapshot()))
    {
      if currentIntersect != None {
        object1Colour := Yellow;
      }
    }
  }
}
