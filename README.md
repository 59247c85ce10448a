# Pointer, trail and keyboard state machines of the three.js course exercises

A Dafny model of the small state machines that sit around the three.js,
GSAP and cannon-es calls in five course exercises:

- **Hover and click trackers** (Sesion-10, exercises 02, 04 and 05). Each
  animation frame receives the ray query's hit list, nearest hit first, and
  updates a "currently hovered" slot; console lines mark the enter and leave
  edges. In 02 and 04 a click acts only on what is hovered; in 05 the click
  listener tests a slot that nothing fills, so a click never acts.
  - 02 paints one sphere blue on enter, yellow on a click while hovered, and
    orange on every frame without hits.
  - 04 keeps the slot in its own `requestAnimationFrame` loop. A click
    requests a tween of the hovered mesh to its current y rotation plus 720°.
  - 05 has two meshes, 'esfera' and 'cubo'. A single boolean `mouseOnTop`
    remembers that something is highlighted but not which mesh.
- **Image trail** (Sesion-12). A mouse move drops a 227×150 image centred on
  the pointer when the pointer is at least 200 px from the last drop on some
  axis. The pictures cycle through a six-entry list.
- **Keyboard movement** (Sesion-15, exercise 03). `keydown` and `keyup`
  set and clear five flags. Each tick moves the player one `speed` step per
  held flag.

Each script becomes one module (`ClickColour`, `ClickSpin`, `MultiObject`,
`ImageTrail`, `PlayerControls`). `Scene` holds shared values. `Hover`
holds the edge detector that 02 and 04 both contain: the same branches
(02 tests `!currentIntersect`, 04 tests `=== null`, which agree here, and
their console lines differ only in capitalisation), with 02's colour
writes mixed in and modelled in `ClickColour`. A module
has two layers:

- A state datatype with pure step functions, run functions over a series of
  events, and lemmas about them.
- A class whose fields are the script's module-level variables. Its methods
  are the event handlers, written statement by statement as in the script.
  Each method's `ensures` ties the new state to the step function.

Modelling conventions:

- The ray query's result is an input `seq` of target identities.
- Colours are an enumeration.
- A GSAP tween is modelled by the end value it requests. Scales are in tenths
  (10 or 17) and rotations in whole degrees.
- Pointer coordinates are whole pixels.
- Player positions are whole multiples of `speed` (0.1).

Two behaviours of the scripts worth knowing:

- Moving straight from one target onto another writes no line in 02 and 04
  (`Hover.DirectSwapIsSilent`), and 05 highlights nothing new
  (`MultiObject.HoveredFramesFreeze`).
- `animate` in 04 runs in its own `requestAnimationFrame` loop, beside the
  render loop, and is modelled as its own atomic step
  (`ClickSpin.SpinScene.Animate`).

## Model

| member | source | states |
|---|---|---|
| Hover.Track | Sesion-10/04-Animaciones-al-Click/src/script.js:93-103 | After a frame the slot holds the nearest hit if there is one, and is empty otherwise. "Enter" is written exactly when an empty slot meets a non-empty hit list. "Leave" is written exactly when an occupied slot meets an empty one. |
| Hover.TrackRun | Sesion-10/04-Animaciones-al-Click/src/script.js:88-106 | After any series of frames the slot depends only on the last frame: its nearest hit, or empty. A run writes at most one line per frame. |
| Hover.SteadyHoverEntersOnce | Sesion-10/04-Animaciones-al-Click/src/script.js:93-97 | A run of frames that all hit something writes exactly one "enter" when the slot started empty, and nothing when it started occupied, whatever targets are hit. |
| Hover.AwayLeavesOnce | Sesion-10/04-Animaciones-al-Click/src/script.js:98-102 | A run of frames that hit nothing writes exactly one "leave" when the slot started occupied, and nothing when it started empty. |
| Hover.EdgesAlternate | Sesion-10/04-Animaciones-al-Click/src/script.js:93-102 | Over any run, enter and leave lines strictly alternate, and the first one is the one the starting slot allows. The slot ends occupied exactly when the last line was "enter", or, if nothing was written, exactly when it started occupied. |
| Hover.DirectSwapIsSilent | Sesion-10/02-Configuracion-de-clicks/src/script.js:112-117 | Moving from one target straight onto a different one writes no leave and no enter, and only the slot changes. |
| Hover.NearestHitDecides | Sesion-10/04-Animaciones-al-Click/src/script.js:93-97 | Hits beyond the nearest never change a frame's outcome. |
| ClickColour.AfterTick | Sesion-10/02-Configuracion-de-clicks/src/script.js:112-124 | A frame moves the slot and writes lines as the shared detector does. Every frame without hits paints the sphere orange, whatever the earlier state. An enter frame paints it blue. A frame that keeps hovering leaves the colour alone. |
| ClickColour.AfterClick | Sesion-10/02-Configuracion-de-clicks/src/script.js:80-85 | A click with nothing hovered changes nothing. A click while hovering paints the sphere yellow and keeps the slot. |
| ClickColour.TickRunTracks | Sesion-10/02-Configuracion-de-clicks/src/script.js:112-124 | Over any run of frames, the script's slot equals the slot the shared detector computes. |
| ClickColour.InvPreserved | Sesion-10/02-Configuracion-de-clicks/src/script.js:80-124 | Frames and clicks keep "the sphere is orange exactly when nothing is hovered". |
| ClickColour.InvRun | Sesion-10/02-Configuracion-de-clicks/src/script.js:99-131 | That invariant holds after any series of frames from a state that has it. |
| ClickColour.ClickedYellowPersists | Sesion-10/02-Configuracion-de-clicks/src/script.js:81-121 | Yellow from a click survives any number of frames that keep hitting something. The first frame without hits then turns the sphere orange. |
| ClickColour.ClickScene.constructor | Sesion-10/02-Configuracion-de-clicks/src/script.js:88-91 | Initial state: nothing hovered and the sphere orange, which satisfies the invariant. |
| ClickColour.ClickScene.Tick | Sesion-10/02-Configuracion-de-clicks/src/script.js:112-124 | The `tick` statements keep the invariant. The new slot, colour and console line are those of `AfterTick`. |
| ClickColour.ClickScene.Click | Sesion-10/02-Configuracion-de-clicks/src/script.js:80-85 | The `click` listener keeps the invariant. Its new state is that of `AfterClick`. |
| ClickSpin.SpinScene.constructor | Sesion-10/04-Animaciones-al-Click/src/script.js:65-68 | The slot starts empty. |
| ClickSpin.SpinScene.Animate | Sesion-10/04-Animaciones-al-Click/src/script.js:88-106 | One `animate` callback moves the slot and writes the line exactly as `Hover.Track` does. |
| ClickSpin.SpinScene.Click | Sesion-10/04-Animaciones-al-Click/src/script.js:71-80 | A click with an empty slot requests nothing. A click while hovering requests one tween, for the hovered mesh only, ending 720° beyond that mesh's y rotation at the time of the click. |
| MultiObject.AfterTick | Sesion-10/05-Interacciones-con-Multiples-Objetos/src/script.js:128-181 | With `mouseOnTop` false, a nearest hit on 'esfera' sets it and highlights the sphere (blue, scale 1.7) and leaves the cube. A nearest hit on 'cubo' does the same for the cube. With `mouseOnTop` true, any frame with hits changes nothing. A frame without hits clears `mouseOnTop` and restores both original looks when it was set, and changes nothing otherwise. |
| MultiObject.AfterClick | Sesion-10/05-Interacciones-con-Multiples-Objetos/src/script.js:93-98 | As written, the click paints the sphere yellow only when `currentIntersect` is set, and changes nothing else; with the slot empty it changes nothing at all. |
| MultiObject.MouseOnTopEdges | Sesion-10/05-Interacciones-con-Multiples-Objetos/src/script.js:128-181 | `mouseOnTop` goes false to true exactly on a frame with hits that finds it false, and true to false exactly on a frame without hits that finds it true; these are the frames that write the two console lines. |
| MultiObject.InvPreserved | Sesion-10/05-Interacciones-con-Multiples-Objetos/src/script.js:128-181 | Frames and clicks keep the invariant. When `mouseOnTop` is false both meshes look original. When it is true exactly one is highlighted. `currentIntersect` stays unset. |
| MultiObject.InvRun | Sesion-10/05-Interacciones-con-Multiples-Objetos/src/script.js:111-181 | The invariant holds after any series of frames from a state that has it. |
| MultiObject.ClickIsDead | Sesion-10/05-Interacciones-con-Multiples-Objetos/src/script.js:93-103 | In every state reachable from the start, a click changes nothing. |
| MultiObject.HoveredFramesFreeze | Sesion-10/05-Interacciones-con-Multiples-Objetos/src/script.js:128-159 | Once something is highlighted, frames that keep hitting meshes, in any order, leave the whole state unchanged. A sphere-to-cube move does not highlight the cube. |
| MultiObject.SphereThenCube | Sesion-10/05-Interacciones-con-Multiples-Objetos/src/script.js:128-159 | From the start, a frame on the sphere and then a frame on the cube leaves the sphere highlighted and the cube original. |
| MultiObject.NearestHitDecides | Sesion-10/05-Interacciones-con-Multiples-Objetos/src/script.js:128-160 | Only `intersects[0]` decides the branch. Farther hits are ignored. |
| MultiObject.MultiScene.constructor | Sesion-10/05-Interacciones-con-Multiples-Objetos/src/script.js:21-38 | Initial state: `mouseOnTop` false, orange sphere, green cube, both at scale 1, click slot empty. The invariant holds. |
| MultiObject.MultiScene.Tick | Sesion-10/05-Interacciones-con-Multiples-Objetos/src/script.js:113-181 | The `tick` if/else chain keeps the invariant. Its new state is that of `AfterTick`. |
| MultiObject.MultiScene.Click | Sesion-10/05-Interacciones-con-Multiples-Objetos/src/script.js:93-98 | The `click` listener's new state is that of `AfterClick`. |
| ImageTrail.Place | Sesion-12/Ejercicio-01--Images-Trail/main.js:53-59 | The image shows the given picture, and its 227×150 box is centred on the pointer: left = x − 113.5 and top = y − 75. |
| ImageTrail.Created | Sesion-12/Ejercicio-01--Images-Trail/main.js:53-76 | `createFloatImage` appends exactly one image, showing the picture at `index`. The index advances by one and wraps back into [0, 6). `lastPost` is untouched. |
| ImageTrail.AfterMove | Sesion-12/Ejercicio-01--Images-Trail/main.js:92-108 | A move passing the per-axis gate appends one image at the pointer, advances the index to (index + 1) mod 6 and records the pointer as `lastPost`. Any other move changes nothing. The index stays in [0, 6). |
| ImageTrail.MoveRun | Sesion-12/Ejercicio-01--Images-Trail/main.js:73-76 | After any series of moves the index is still in [0, 6). |
| ImageTrail.MovePreservesRoundRobin | Sesion-12/Ejercicio-01--Images-Trail/main.js:55-76 | A move keeps round robin: the index is the image count mod 6, and image k shows picture k mod 6. |
| ImageTrail.RoundRobinRun | Sesion-12/Ejercicio-01--Images-Trail/main.js:28-76 | Round robin holds after any series of moves, so the k-th image created shows `imageList[k mod 6]`. |
| ImageTrail.PageOnlyGrows | Sesion-12/Ejercicio-01--Images-Trail/main.js:103-107 | Over n moves the page gains at most n images, and the images already on it are never changed or reordered. |
| ImageTrail.FirstImage | Sesion-12/Ejercicio-01--Images-Trail/main.js:12-103 | Because `lastPost` starts at (0, 0), the first move creates an image iff abs(x) ≥ 200 or abs(y) ≥ 200. |
| ImageTrail.PerAxisNotEuclidean | Sesion-12/Ejercicio-01--Images-Trail/main.js:95-103 | The gate is per axis, not Euclidean: a diagonal move to (199, 199), about 281 px away, creates nothing. |
| ImageTrail.Trail.constructor | Sesion-12/Ejercicio-01--Images-Trail/main.js:11-37 | Initial state: `lastPost` (0, 0), index 0, no images. Round robin holds. |
| ImageTrail.Trail.CreateFloatImage | Sesion-12/Ejercicio-01--Images-Trail/main.js:53-88 | The function's statements produce exactly the state of `Created`. |
| ImageTrail.Trail.MouseMove | Sesion-12/Ejercicio-01--Images-Trail/main.js:92-108 | The listener's statements keep round robin and produce the state of `AfterMove`. |
| PlayerControls.Switch | Sesion-15/Ejercicio-03-Combinar-animaciones/src/script.js:158-176 | A recognised key ('w', 's', 'a', 'd', ' ') sets its own flag to the given value, and every other flag keeps its value. Any other key leaves all flags unchanged. |
| PlayerControls.KeyDownIdempotent | Sesion-15/Ejercicio-03-Combinar-animaciones/src/script.js:158-166 | Pressing a key twice is the same as pressing it once. |
| PlayerControls.PressThenRelease | Sesion-15/Ejercicio-03-Combinar-animaciones/src/script.js:158-176 | A press followed by a release of the same key equals the release alone, and leaves that key's flag false. |
| PlayerControls.UpperCaseIgnored | Sesion-15/Ejercicio-03-Combinar-animaciones/src/script.js:159-175 | 'W' is not recognised: neither listener changes anything for it. |
| PlayerControls.HeldIffLastPressed | Sesion-15/Ejercicio-03-Combinar-animaciones/src/script.js:158-176 | After any series of key events, a flag is held exactly when the last event for its key was a keydown. With no such event it keeps its initial value. |
| PlayerControls.Moved | Sesion-15/Ejercicio-03-Combinar-animaciones/src/script.js:190-194 | One tick changes z by backward − forward, x by right − left and y by jump, in units of `speed`, so opposite keys cancel. |
| PlayerControls.SteadyKeysMoveLinearly | Sesion-15/Ejercicio-03-Combinar-animaciones/src/script.js:190-194 | Holding the same keys for n ticks moves the body n times that displacement. |
| PlayerControls.PlayerMovement.constructor | Sesion-15/Ejercicio-03-Combinar-animaciones/src/script.js:148-155 | All five flags start false. |
| PlayerControls.PlayerMovement.KeyDown | Sesion-15/Ejercicio-03-Combinar-animaciones/src/script.js:158-166 | The `keydown` switch produces the flags of `AfterKeyDown`, a `Switch` with true. |
| PlayerControls.PlayerMovement.KeyUp | Sesion-15/Ejercicio-03-Combinar-animaciones/src/script.js:168-176 | The `keyup` switch produces the flags of `AfterKeyUp`, a `Switch` with false. |
| PlayerControls.PlayerBody.constructor | Sesion-15/Ejercicio-03-Combinar-animaciones/src/script.js:134-135 | The body starts at the given position. |
| PlayerControls.MovePlayer | Sesion-15/Ejercicio-03-Combinar-animaciones/src/script.js:189-194 | The five `if` lines of `tick` move the body to exactly `Moved` of its old position and the held flags. |

## Left out

- Scene, camera, renderer, OrbitControls and resize handling: library setup with no logic of the scripts' own.
- The ray query (`setFromCamera`, `intersectObjects`) is a library call. Its distance-sorted result is an input.
- Pointer normalisation and the sine bobbing of `object1` are floating-point code, not needed once hits are inputs.
- GSAP easing, durations and the image trail's opacity and y tweens: only the requested end values are modelled.
- Console output other than the enter and leave lines of 02 and 04 is not modelled. In 05 the lines written when the pointer first crosses a mesh and when it leaves are not returned as traces; they are exactly the false-to-true and true-to-false changes of `mouseOnTop` (`MultiObject.MouseOnTopEdges`).
- ClickSpin.SpinScene.Click: the hovered mesh's live y rotation is a parameter. During a running tween it is the interpolated value the library reports, which the model does not compute.
- Rotations are modelled in whole degrees. The script uses radians (4π = 720°).
- cannon-es physics is left out: `world.fixedStep`, the bodies, gravity, and the copies of body positions and rotations onto meshes. So is the whole physics-only exercise Sesion-15/Ejercicio-01-fisicas.
- PlayerControls.MovePlayer: positions are whole multiples of `speed`. Float rounding of repeated 0.1 steps and the physics step's own movement of the body are not modelled.
- Image trail: the one-second `setTimeout` fade-out and `img.remove()` are timers. The page therefore lists every image ever appended. The random `zIndex`, and styling other than picture and position, are left out.
- Pointer coordinates are whole pixels. `clientX` and `clientY` are whole numbers in the browser events this listens to.
