/**
 * Values shared by the pointer-picking exercises of Sesion-10: the identity
 * of a picked mesh, the material colours the scripts assign, and the console
 * lines that mark hover edges.
 */
module Scene {

  datatype Option<+T> = None | Some(value: T)

  /** Identity of the mesh a ray intersection belongs to. */
  type TargetId = nat

  /** The material colours the scripts assign. */
  datatype Colour =
    | Orange  // '#ff6600', the sphere's original colour
    | Blue    // '#0000ff', the hover highlight
    | Yellow  // '#ffff00', the click highlight
    | Green   // 'rgba(30, 255, 0, 1)', the cube's original colour

  /** The two console lines that mark the edges of a hover. */
  datatype Trace = MouseEnter | MouseLeave

  /** A trace slot as a (possibly empty) log fragment. */
  function Logged(t: Option<Trace>): (log: seq<Trace>)
    ensures |log| <= 1
    ensures t.Some? ==> log == [t.value]
    ensures t.None? ==> log == []
  {
    if t.Some? then [t.value] else []
  }
}
