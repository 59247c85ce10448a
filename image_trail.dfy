/**
 * Sesion-12/Ejercicio-01--Images-Trail: while the mouse moves, floating
 * 227x150 images are dropped under the pointer, at least 200 px apart on
 * some axis, cycling through a list of six pictures.
 *
 * Pointer coordinates are whole pixels. `page` lists every image appended
 * to the document body, oldest first.
 */
module ImageTrail {

  /** Least per-axis gap, in pixels, between two consecutive images. */
  const MinDistance: int := 200

  const ImageList: seq<string> := [
    "./assets/p1.jpg",
    "./assets/p2.jpg",
    "./assets/p3.jpg",
    "./assets/p4.jpg",
    "./assets/p5.jpg",
    "./assets/p6.jpg"
  ]

  /** Size of every image box, in pixels. */
  const Width: int := 227
  const Height: int := 150

  /** An appended `<img>`: its picture and its top-left corner in pixels. */
  datatype Img = Img(src: string, left: real, top: int)

  /** The script's mutable state: `lastPost`, `index` and the images on the page. */
  datatype State = State(lastX: int, lastY: int, index: nat, page: seq<Img>)

  const Initial := State(0, 0, 0, [])

  function Abs(n: int): nat {
    if n < 0 then -n else n
  }

  /** The spacing gate: far enough on at least one axis (not a Euclidean distance). */
  predicate FarEnough(lastX: int, lastY: int, x: int, y: int) {
    Abs(x - lastX) >= MinDistance || Abs(y - lastY) >= MinDistance
  }

  /** The image `createFloatImage` builds for picture `src` at the pointer. */
  function Place(src: string, posX: int, posY: int): (img: Img)
    ensures img.src == src
    ensures img.left + (Width as real) / 2.0 == posX as real
    ensures img.top + Height / 2 == posY
  {
    Img(src, posX as real - 113.5, posY - 75)
  }

  /** `createFloatImage`: append the current picture and advance the wrapping index. */
  function Created(s: State, posX: int, posY: int): (r: State)
    requires s.index < |ImageList|
    ensures r.page == s.page + [Place(ImageList[s.index], posX, posY)]
    ensures r.index < |ImageList| && r.index == (s.index + 1) % |ImageList|
    ensures r.lastX == s.lastX && r.lastY == s.lastY
  {
    var next := if s.index + 1 >= |ImageList| then 0 else s.index + 1;
    s.(page := s.page + [Place(ImageList[s.index], posX, posY)], index := next)
  }

  /** One `mousemove` event at (x, y). */
  function AfterMove(s: State, x: int, y: int): (r: State)
    requires s.index < |ImageList|
    ensures FarEnough(s.lastX, s.lastY, x, y) ==>
      r.page == s.page + [Place(ImageList[s.index], x, y)] && r.lastX == x && r.lastY == y
    ensures FarEnough(s.lastX, s.lastY, x, y) ==> r.index == (s.index + 1) % |ImageList|
    ensures !FarEnough(s.lastX, s.lastY, x, y) ==> r == s
    ensures r.index < |ImageList|
  {
    if FarEnough(s.lastX, s.lastY, x, y) then
      Created(s, x, y).(lastX := x, lastY := y)
    else
      s
  }

  /** A mousemove event's pointer position. */
  datatype Move = Move(x: int, y: int)

  /** The state after a series of mousemove events, first event first. */
  function MoveRun(s: State, moves: seq<Move>): (r: State)
    requires s.index < |ImageList|
    ensures r.index < |ImageList|
    decreases |moves|
  {
    if moves == [] then s else MoveRun(AfterMove(s, moves[0].x, moves[0].y), moves[1..])
  }

  /**
   * Round robin: the index counts the images appended so far modulo six,
   * and the k-th image (from 0) shows picture k mod 6.
   */
  ghost predicate RoundRobin(s: State) {
    && s.index == |s.page| % |ImageList|
    && forall k :: 0 <= k < |s.page| ==> s.page[k].src == ImageList[k % |ImageList|]
  }

  lemma MovePreservesRoundRobin(s: State, x: int, y: int)
    requires s.index < |ImageList| && RoundRobin(s)
    ensures RoundRobin(AfterMove(s, x, y))
  {
    var r := AfterMove(s, x, y);
    if FarEnough(s.lastX, s.lastY, x, y) {
      assert r.page == s.page + [Place(ImageList[s.index], x, y)];
      forall k | 0 <= k < |r.page| ensures r.page[k].src == ImageList[k % |ImageList|] {
        if k == |s.page| {
          assert r.page[k].src == ImageList[s.index];
        } else {
          assert r.page[k] == s.page[k];
        }
      }
    }
  }

  /** Round robin holds after any series of events from the initial state. */
  lemma {:induction false} RoundRobinRun(s: State, moves: seq<Move>)
    requires s.index < |ImageList| && RoundRobin(s)
    ensures RoundRobin(MoveRun(s, moves))
    decreases |moves|
  {
    if moves != [] {
      MovePreservesRoundRobin(s, moves[0].x, moves[0].y);
      RoundRobinRun(AfterMove(s, moves[0].x, moves[0].y), moves[1..]);
    }
  }

  /**
   * Every event appends at most one image and never disturbs the images
   * already on the page.
   */
  lemma {:induction false} PageOnlyGrows(s: State, moves: seq<Move>)
    requires s.index < |ImageList|
    ensures |s.page| <= |MoveRun(s, moves).page| <= |s.page| + |moves|
    ensures MoveRun(s, moves).page[..|s.page|] == s.page
    decreases |moves|
  {
    if moves != [] {
      var next := AfterMove(s, moves[0].x, moves[0].y);
      PageOnlyGrows(next, moves[1..]);
      assert next.page[..|s.page|] == s.page;
    }
  }

  /** Because `lastPost` starts at the origin, the first image needs |x| >= 200 or |y| >= 200. */
  lemma FirstImage(x: int, y: int)
    ensures AfterMove(Initial, x, y).page != [] <==> Abs(x) >= 200 || Abs(y) >= 200
  {
  }

  /** The gate is per axis: a diagonal step of about 281 px drops no image. */
  lemma PerAxisNotEuclidean()
    ensures 199 * 199 + 199 * 199 >= MinDistance * MinDistance
    ensures AfterMove(Initial, 199, 199) == Initial
  {
  }

  /** The script's module-level variables, the page, and its two functions. */
  class Trail {
    var lastX: int
    var lastY: int
    var index: nat
    var page: seq<Img>

    function Snapshot(): State
      reads this
    {
      State(lastX, lastY, index, page)
    }

    ghost predicate Valid()
      reads this
    {
      index < |ImageList| && RoundRobin(Snapshot())
    }

    constructor ()
      ensures Snapshot() == Initial && Valid()
    {
      lastX, lastY := 0, 0;
      index := 0;
      page := [];
    }

    /** `createFloatImage(posX, posY)`. */
    method CreateFloatImage(posX: int, posY: int)
      requires index < |ImageList|
      modifies this
      ensures Snapshot() == Created(old(Snapshot()), posX, posY)
    {
      var img := Img(ImageList[index], posX as real - 113.5, posY - 75);
      page := page + [img];
      index := index + 1;
      if index >= |ImageList| {
        index := 0;
      }
    }

    /** The `mousemove` listener. */
    method MouseMove(clientX: int, clientY: int)
      requires Valid()
      modifies this
      ensures Valid()
      ensures Snapshot() == AfterMove(old(Snapshot()), clientX, clientY)
    {
      var dx := clientX - lastX;
      dx := Abs(dx);
      var dy := clientY - lastY;
      dy := Abs(dy);
      if dx >= MinDistance || dy >= MinDistance {
        CreateFloatImage(clientX, clientY);
        lastX := clientX;
        lastY := clientY;
      }
      MovePreservesRoundRobin(old(Snapshot()), clientX, clientY);
    }
  }
}
