/**
 * The hover edge detector that Sesion-10/02 (inside `tick`) and Sesion-10/04
 * (inside its own `animate` loop) both run once per animation frame: the
 * slot `currentIntersect` follows the nearest ray hit, and a console line is
 * written when the slot goes from empty to occupied or back.
 */
module Hover {
  import opened Scene

  /** The slot after one frame, and the console line that frame wrote. */
  datatype Step = Step(current: Option<TargetId>, trace: Option<Trace>)

  /**
   * One frame. `intersects` is the ray query's result, nearest hit first.
   * Only the empty/occupied status of the old slot is consulted, so moving
   * from one target straight onto another writes nothing.
   */
  function Track(current: Option<TargetId>, intersects: seq<TargetId>): (r: Step)
    ensures intersects != [] ==> r.current == Some(intersects[0])
    ensures intersects == [] ==> r.current == None
    ensures r.trace == Some(MouseEnter) <==> current == None && intersects != []
    ensures r.trace == Some(MouseLeave) <==> current != None && intersects == []
  {
    if |intersects| > 0 then
      Step(Some(intersects[0]), if current == None then Some(MouseEnter) else None)
    else
      Step(None, if current != None then Some(MouseLeave) else None)
  }

  /** The slot left by a series of frames and everything they wrote, in order. */
  datatype Run = Run(final: Option<TargetId>, log: seq<Trace>)

  /** What the last frame of a run leaves in the slot. */
  function Settled(current: Option<TargetId>, frames: seq<seq<TargetId>>): Option<TargetId>
  {
    if frames == [] then current
    else if frames[|frames| - 1] == [] then None
    else Some(frames[|frames| - 1][0])
  }

  /** Frames applied one after another, first frame first. */
  function TrackRun(current: Option<TargetId>, frames: seq<seq<TargetId>>): (r: Run)
    ensures r.final == Settled(current, frames)
    ensures |r.log| <= |frames|
    decreases |frames|
  {
    if frames == [] then Run(current, [])
    else
      var step := Track(current, frames[0]);
      var rest := TrackRun(step.current, frames[1..]);
      Run(rest.final, Logged(step.trace) + rest.log)
  }

  ghost predicate AllHit(frames: seq<seq<TargetId>>) {
    forall i :: 0 <= i < |frames| ==> frames[i] != []
  }

  ghost predicate AllMiss(frames: seq<seq<TargetId>>) {
    forall i :: 0 <= i < |frames| ==> frames[i] == []
  }

  /**
   * Steady hover: a run of frames that all hit something writes one
   * "enter" if the slot started empty, and nothing otherwise, whatever
   * targets the frames hit.
   */
  lemma {:induction false} SteadyHoverEntersOnce(current: Option<TargetId>, frames: seq<seq<TargetId>>)
    requires AllHit(frames)
    ensures TrackRun(current, frames).log == if current == None && frames != [] then [MouseEnter] else []
    decreases |frames|
  {
    if frames != [] {
      var next := Track(current, frames[0]).current;
      assert AllHit(frames[1..]) by {
        forall i | 0 <= i < |frames[1..]| ensures frames[1..][i] != [] {
          assert frames[1..][i] == frames[i + 1];
        }
      }
      SteadyHoverEntersOnce(next, frames[1..]);
    }
  }

  /**
   * Steady absence: a run of frames that hit nothing writes one "leave" if
   * something was hovered, and nothing otherwise.
   */
  lemma {:induction false} AwayLeavesOnce(current: Option<TargetId>, frames: seq<seq<TargetId>>)
    requires AllMiss(frames)
    ensures TrackRun(current, frames).log == if current != None && frames != [] then [MouseLeave] else []
    decreases |frames|
  {
    if frames != [] {
      var next := Track(current, frames[0]).current;
      assert AllMiss(frames[1..]) by {
        forall i | 0 <= i < |frames[1..]| ensures frames[1..][i] == [] {
          assert frames[1..][i] == frames[i + 1];
        }
      }
      AwayLeavesOnce(next, frames[1..]);
    }
  }

  /** Enter and leave lines alternate, starting with the one the old slot allows. */
  ghost predicate Alternates(current: Option<TargetId>, log: seq<Trace>) {
    && (log != [] ==> log[0] == if current == None then MouseEnter else MouseLeave)
    && (forall i :: 0 <= i < |log| - 1 ==> log[i] != log[i + 1])
  }

  /**
   * Over any run, the log alternates enter/leave, and the slot is occupied
   * at the end exactly when the last line written was an "enter" (or,
   * when nothing was written, exactly when it was occupied at the start).
   */
  lemma {:induction false} EdgesAlternate(current: Option<TargetId>, frames: seq<seq<TargetId>>)
    ensures Alternates(current, TrackRun(current, frames).log)
    ensures var r := TrackRun(current, frames);
      if r.log == [] then (r.final == None <==> current == None)
      else (r.final != None <==> r.log[|r.log| - 1] == MouseEnter)
    decreases |frames|
  {
    if frames != [] {
      var step := Track(current, frames[0]);
      var rest := TrackRun(step.current, frames[1..]);
      EdgesAlternate(step.current, frames[1..]);
      var log := Logged(step.trace) + rest.log;
      assert TrackRun(current, frames) == Run(rest.final, log);
      if step.trace.Some? {
        assert step.trace == Some(MouseEnter) <==> step.current != None;
        forall i | 0 <= i < |log| - 1 ensures log[i] != log[i + 1] {
          if i > 0 {
            assert log[i] == rest.log[i - 1] && log[i + 1] == rest.log[i];
          }
        }
      } else {
        assert step.current == None <==> current == None;
        assert log == rest.log;
      }
    }
  }

  /**
   * Moving straight from one target onto another writes nothing: there is
   * no leave for the old target and no enter for the new one.
   */
  lemma DirectSwapIsSilent(previous: TargetId, intersects: seq<TargetId>)
    requires intersects != [] && intersects[0] != previous
    ensures Track(Some(previous), intersects) == Step(Some(intersects[0]), None)
  {
  }

  /** Only the nearest hit matters: farther hits never change the outcome. */
  lemma NearestHitDecides(current: Option<TargetId>, intersects: seq<TargetId>)
    requires intersects != []
    ensures Track(current, intersects) == Track(current, intersects[..1])
  {
  }
}
