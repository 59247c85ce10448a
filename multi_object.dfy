/**
 * Sesion-10/05-Interacciones-con-Multiples-Objetos: a sphere named
 * 'esfera' (`object1`) and a cube named 'cubo' (`object2`). Hovering either
 * one while nothing is highlighted turns it blue and grows it; a frame
 * without hits restores both. The hover memory is a single boolean,
 * `mouseOnTop`, so it does not remember WHICH mesh is highlighted.
 *
 * Scales are the end values requested from the tween library, in tenths:
 * 10 for the original size, 17 for the hover size.
 */
module MultiObject {
  import opened Scene

  /** The `name` of the mesh an intersection belongs to. */
  datatype Mesh = Esfera | Cubo

  /** A mesh's material colour and requested scale (in tenths). */
  datatype Look = Look(colour: Colour, scale: nat)

  const Rest1 := Look(Orange, 10)
  const Rest2 := Look(Green, 10)
  const Highlight := Look(Blue, 17)

  /**
   * The script's mutable state. `currentIntersect` is declared and read by
   * the click listener but no statement of the script ever assigns it.
   */
  datatype State = State(mouseOnTop: bool, object1: Look, object2: Look, currentIntersect: Option<Mesh>)

  const Initial := State(false, Rest1, Rest2, None)

  /**
   * Reachable states: with `mouseOnTop` false both meshes look original;
   * with it true exactly one of them is highlighted; the click slot is empty.
   */
  ghost predicate Inv(s: State) {
    && s.currentIntersect == None
    && (!s.mouseOnTop ==> s.object1 == Rest1 && s.object2 == Rest2)
    && (s.mouseOnTop ==> (s.object1 == Highlight && s.object2 == Rest2) || (s.object1 == Rest1 && s.object2 == Highlight))
  }

  /** One `tick`, given the ray query's hits, nearest first. */
  function AfterTick(s: State, intersects: seq<Mesh>): (r: State)
    ensures r.currentIntersect == s.currentIntersect
    ensures intersects != [] && !s.mouseOnTop && intersects[0] == Esfera ==>
      r.mouseOnTop && r.object1 == Highlight && r.object2 == s.object2
    ensures intersects != [] && !s.mouseOnTop && intersects[0] == Cubo ==>
      r.mouseOnTop && r.object2 == Highlight && r.object1 == s.object1
    ensures intersects != [] && s.mouseOnTop ==> r == s
    ensures intersects == [] && s.mouseOnTop ==>
      !r.mouseOnTop && r.object1 == Rest1 && r.object2 == Rest2
    ensures intersects == [] && !s.mouseOnTop ==> r == s
  {
    if |intersects| > 0 && intersects[0].Esfera? then
      if !s.mouseOnTop then s.(mouseOnTop := true, object1 := Highlight) else s
    else if |intersects| > 0 && intersects[0].Cubo? then
      if !s.mouseOnTop then s.(mouseOnTop := true, object2 := Highlight) else s
    else
      if s.mouseOnTop then s.(mouseOnTop := false, object2 := Rest2, object1 := Rest1) else s
  }

  /** The `click` listener, as written: it tests a slot nothing fills. */
  function AfterClick(s: State): (r: State)
    ensures s.currentIntersect == None ==> r == s
    ensures s.currentIntersect != None ==> r.object1.colour == Yellow
    ensures s.currentIntersect != None ==>
      r.object1.scale == s.object1.scale && r.object2 == s.object2 &&
      r.mouseOnTop == s.mouseOnTop && r.currentIntersect == s.currentIntersect
  {
    if s.currentIntersect != None then s.(object1 := s.object1.(colour := Yellow)) else s
  }

  /** The state after a series of frames, first frame first. */
  function TickRun(s: State, frames: seq<seq<Mesh>>): State
    decreases |frames|
  {
    if frames == [] then s else TickRun(AfterTick(s, frames[0]), frames[1..])
  }

  /** Frames and clicks keep the invariant. */
  lemma InvPreserved(s: State, intersects: seq<Mesh>)
    requires Inv(s)
    ensures Inv(AfterTick(s, intersects))
    ensures Inv(AfterClick(s))
  {
  }

  /** The invariant holds after any series of frames from a state that has it. */
  lemma {:induction false} InvRun(s: State, frames: seq<seq<Mesh>>)
    requires Inv(s)
    ensures Inv(TickRun(s, frames))
    decreases |frames|
  {
    if frames != [] {
      InvPreserved(s, frames[0]);
      InvRun(AfterTick(s, frames[0]), frames[1..]);
    }
  }

  /** Clicks are dead: in every reachable state a click changes nothing. */
  lemma ClickIsDead(frames: seq<seq<Mesh>>)
    ensures AfterClick(TickRun(Initial, frames)) == TickRun(Initial, frames)
  {
    InvRun(Initial, frames);
  }

  /**
   * Once something is highlighted, frames that keep hitting a mesh, sphere
   * or cube in any order, change nothing: moving straight from the sphere
   * to the cube leaves the sphere highlighted and the cube untouched.
   */
  lemma {:induction false} HoveredFramesFreeze(s: State, frames: seq<seq<Mesh>>)
    requires s.mouseOnTop
    requires forall i :: 0 <= i < |frames| ==> frames[i] != []
    ensures TickRun(s, frames) == s
    decreases |frames|
  {
    if frames != [] {
      HoveredFramesFreeze(AfterTick(s, frames[0]), frames[1..]);
    }
  }

  /**
   * The console lines "el mouse atravesó el objeto por primera vez" and
   * "el mouse se salió" are written exactly on the frames that flip
   * `mouseOnTop`: false to true on a frame with hits, true to false on a
   * frame without.
   */
  lemma MouseOnTopEdges(s: State, intersects: seq<Mesh>)
    ensures !s.mouseOnTop && AfterTick(s, intersects).mouseOnTop <==> !s.mouseOnTop && intersects != []
    ensures s.mouseOnTop && !AfterTick(s, intersects).mouseOnTop <==> s.mouseOnTop && intersects == []
  {
  }

  /** The sphere-then-cube path of the previous lemma, from the start. */
  lemma SphereThenCube()
    ensures TickRun(Initial, [[Esfera], [Cubo, Esfera]]) == State(true, Highlight, Rest2, None)
  {
  }

  /** Only the nearest hit decides the branch; farther hits are ignored. */
  lemma NearestHitDecides(s: State, intersects: seq<Mesh>)
    requires intersects != []
    ensures AfterTick(s, intersects) == AfterTick(s, intersects[..1])
  {
  }

  /** The script's module-level variables and its two event handlers. */
  class MultiScene {
    var mouseOnTop: bool
    var object1Colour: Colour
    var object1Scale: nat
    var object2Colour: Colour
    var object2Scale: nat
    var currentIntersect: Option<Mesh>

    function Snapshot(): State
      reads this
    {
      State(mouseOnTop, Look(object1Colour, object1Scale), Look(object2Colour, object2Scale), currentIntersect)
    }

    ghost predicate Valid()
      reads this
    {
      Inv(Snapshot())
    }

    constructor ()
      ensures Snapshot() == Initial && Valid()
    {
      mouseOnTop := false;
      object1Colour, object1Scale := Orange, 10;
      object2Colour, object2Scale := Green, 10;
      currentIntersect := None;
    }

    /** One frame of `tick`, given the ray query's hits, nearest first. */
    method Tick(intersects: seq<Mesh>)
      requires Valid()
      modifies this
      ensures Valid()
      ensures Snapshot() == AfterTick(old(Snapshot()), intersects)
    {
      if |intersects| > 0 && intersects[0].Esfera? {
        if !mouseOnTop {
          mouseOnTop := true;
          object1Colour := Blue;
          object1Scale := 17;
        }
      } else if |intersects| > 0 && intersects[0].Cubo? {
        if !mouseOnTop {
          mouseOnTop := true;
          object2Colour := Blue;
          object2Scale := 17;
        }
      } else {
        if mouseOnTop {
          mouseOnTop := false;
          object2Colour := Green;
          object2Scale := 10;
          object1Colour := Orange;
          object1Scale := 10;
        }
      }
    }

    /**
     * The `click` listener. In a valid scene its branch is never taken
     * (see ClickIsDead), so it is stated for any scene.
     */
    method Click()
      modifies this
      ensures Snapshot() == AfterClick(old(Snapshot()))
    {
      if currentIntersect != None {
        object1Colour := Yellow;
      }
    }
  }
}
