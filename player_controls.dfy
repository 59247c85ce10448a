/**
 * Sesion-15/Ejercicio-03-Combinar-animaciones: five movement flags set by
 * `keydown` and cleared by `keyup`, and the lines of `tick` that push the
 * player's physics body one `speed` step along an axis for each held flag.
 *
 * Positions are counted in whole multiples of `playerMovement.speed` (0.1);
 * the physics step that also moves the body is not part of this model.
 */
module PlayerControls {

  /** The keys the two switches recognise (`event.key` values, case-sensitive). */
  const Keys: set<string> := {"w", "s", "a", "d", " "}

  /** The boolean fields of `playerMovement`. */
  datatype Flags = Flags(forward: bool, backward: bool, left: bool, right: bool, jump: bool)

  /** `playerMovement` as first declared: nothing held. */
  const Released := Flags(false, false, false, false, false)

  /** The flag a recognised key drives. */
  function Flag(f: Flags, key: string): bool
    requires key in Keys
  {
    if key == "w" then f.forward
    else if key == "s" then f.backward
    else if key == "a" then f.left
    else if key == "d" then f.right
    else f.jump
  }

  /**
   * The `switch (event.key)` shared by both listeners: store `held` in the
   * flag of a recognised key; any other key falls through (no default).
   */
  function Switch(f: Flags, key: string, held: bool): (r: Flags)
    ensures key in Keys ==> Flag(r, key) == held
    ensures forall k :: k in Keys && k != key ==> Flag(r, k) == Flag(f, k)
    ensures key !in Keys ==> r == f
  {
    if key == "w" then f.(forward := held)
    else if key == "s" then f.(backward := held)
    else if key == "a" then f.(left := held)
    else if key == "d" then f.(right := held)
    else if key == " " then f.(jump := held)
    else f
  }

  function AfterKeyDown(f: Flags, key: string): Flags { Switch(f, key, true) }

  function AfterKeyUp(f: Flags, key: string): Flags { Switch(f, key, false) }

  /** Pressing a key twice is the same as pressing it once. */
  lemma KeyDownIdempotent(f: Flags, key: string)
    ensures AfterKeyDown(AfterKeyDown(f, key), key) == AfterKeyDown(f, key)
  {
  }

  /** Pressing and releasing a key leaves its flag false and every other flag as it was. */
  lemma PressThenRelease(f: Flags, key: string)
    ensures AfterKeyUp(AfterKeyDown(f, key), key) == AfterKeyUp(f, key)
    ensures key in Keys ==> !Flag(AfterKeyUp(AfterKeyDown(f, key), key), key)
  {
    if key == "w" {
    } else if key == "s" {
    } else if key == "a" {
    } else if key == "d" {
    } else if key == " " {
    } else {
      assert key !in Keys;
    }
  }

  /** An upper-case letter is not recognised: Shift+W moves nothing. */
  lemma UpperCaseIgnored(f: Flags)
    ensures AfterKeyDown(f, "W") == f && AfterKeyUp(f, "W") == f
  {
  }

  datatype KeyEvent = Down(key: string) | Up(key: string)

  /** The flags after a series of key events, first event first. */
  function Replay(f: Flags, events: seq<KeyEvent>): Flags
    decreases |events|
  {
    if events == [] then f
    else
      var e := events[0];
      Replay(if e.Down? then AfterKeyDown(f, e.key) else AfterKeyUp(f, e.key), events[1..])
  }

  /** Reference meaning of a flag: whether the LAST event about its key was a press. */
  function LastSays(events: seq<KeyEvent>, key: string, initially: bool): bool
    decreases |events|
  {
    if events == [] then initially
    else if events[|events| - 1].key == key then events[|events| - 1].Down?
    else LastSays(events[..|events| - 1], key, initially)
  }

  /** Replay the last event separately from the ones before it. */
  lemma {:induction false} ReplaySnoc(f: Flags, events: seq<KeyEvent>)
    requires events != []
    ensures var e := events[|events| - 1];
      var before := Replay(f, events[..|events| - 1]);
      Replay(f, events) == if e.Down? then AfterKeyDown(before, e.key) else AfterKeyUp(before, e.key)
    decreases |events|
  {
    if |events| > 1 {
      var e := events[0];
      var f' := if e.Down? then AfterKeyDown(f, e.key) else AfterKeyUp(f, e.key);
      ReplaySnoc(f', events[1..]);
      assert events[1..][..|events[1..]| - 1] == events[..|events| - 1][1..];
    }
  }

  /** After any series of key events, a flag is held exactly when its key's last event was a press. */
  lemma {:induction false} HeldIffLastPressed(f: Flags, events: seq<KeyEvent>, key: string)
    requires key in Keys
    ensures Flag(Replay(f, events), key) == LastSays(events, key, Flag(f, key))
    decreases |events|
  {
    if events != [] {
      ReplaySnoc(f, events);
      HeldIffLastPressed(f, events[..|events| - 1], key);
    }
  }

  /** A body position in multiples of `speed`. */
  datatype Position = Position(x: int, y: int, z: int)

  function Bit(b: bool): int { if b then 1 else 0 }

  /**
   * The movement lines of one `tick`: forward is -z, backward +z, left -x,
   * right +x, jump +y; opposite keys held together cancel.
   */
  function Moved(p: Position, f: Flags): (r: Position)
    ensures r.z - p.z == Bit(f.backward) - Bit(f.forward)
    ensures r.x - p.x == Bit(f.right) - Bit(f.left)
    ensures r.y - p.y == Bit(f.jump)
  {
    var z := if f.forward then p.z - 1 else p.z;
    var z := if f.backward then z + 1 else z;
    var x := if f.left then p.x - 1 else p.x;
    var x := if f.right then x + 1 else x;
    var y := if f.jump then p.y + 1 else p.y;
    Position(x, y, z)
  }

  /** The position after `n` ticks with the same keys held. */
  function MovedFor(p: Position, f: Flags, n: nat): Position
    decreases n
  {
    if n == 0 then p else MovedFor(Moved(p, f), f, n - 1)
  }

  /** Holding the same keys for n ticks moves the body n steps per held direction. */
  lemma {:induction false} SteadyKeysMoveLinearly(p: Position, f: Flags, n: nat)
    ensures MovedFor(p, f, n).z == p.z + n * (Bit(f.backward) - Bit(f.forward))
    ensures MovedFor(p, f, n).x == p.x + n * (Bit(f.right) - Bit(f.left))
    ensures MovedFor(p, f, n).y == p.y + n * Bit(f.jump)
    decreases n
  {
    if n > 0 {
      SteadyKeysMoveLinearly(Moved(p, f), f, n - 1);
    }
  }

  /** The `playerMovement` object and its two listeners. */
  class PlayerMovement {
    var forward: bool
    var backward: bool
    var left: bool
    var right: bool
    var jump: bool

    function Snapshot(): Flags
      reads this
    {
      Flags(forward, backward, left, right, jump)
    }

    constructor ()
      ensures Snapshot() == Released
    {
      forward, backward, left, right, jump := false, false, false, false, false;
    }

    /** The `keydown` listener. */
    method KeyDown(key: string)
      modifies this
      ensures Snapshot() == AfterKeyDown(old(Snapshot()), key)
    {
      if key == "w" { forward := true; }
      else if key == "s" { backward := true; }
      else if key == "a" { left := true; }
      else if key == "d" { right := true; }
      else if key == " " { jump := true; }
    }

    /** The `keyup` listener. */
    method KeyUp(key: string)
      modifies this
      ensures Snapshot() == AfterKeyUp(old(Snapshot()), key)
    {
      if key == "w" { forward := false; }
      else if key == "s" { backward := false; }
      else if key == "a" { left := false; }
      else if key == "d" { right := false; }
      else if key == " " { jump := false; }
    }
  }

  /** The player's physics body, as far as the movement lines touch it. */
  class PlayerBody {
    var x: int
    var y: int
    var z: int

    function Where(): Position
      reads this
    {
      Position(x, y, z)
    }

    constructor (x0: int, y0: int, z0: int)
      ensures Where() == Position(x0, y0, z0)
    {
      x, y, z := x0, y0, z0;
    }
  }

  /** The player-movement lines of `tick`. */
  method MovePlayer(movement: PlayerMovement, body: PlayerBody)
    modifies body
    ensures body.Where() == Moved(old(body.Where()), movement.Snapshot())
  {
    if movement.forward { body.z := body.z - 1; }
    if movement.backward { body.z := body.z + 1; }
    if movement.left { body.x := body.x - 1; }
    if movement.right { body.x := body.x + 1; }
    if movement.jump { body.y := body.y + 1; }
  }
}
