# Pointer trail renderer: a Dafny model

`drawing.js` draws a fading trail of small black dots behind the mouse or a
finger. While the pointer is pressed, each event pushes a batch of five
jittered particles onto an array. An animation loop runs once per display
frame. On each frame it walks the array backwards, splices out particles older
than two seconds and gives every survivor an opacity that falls linearly with
age. While drawing, text selection on the page is switched off through the
body's `userSelect` style.

This project models that core:

- `particles.dfy`, module `Particles`. The particle record, the emission of
  one particle and of one batch, and what one animation frame does to the
  collection. All of these are pure functions, with lemmas about them.
- `drawing.dfy`, module `Drawing`. The class `TrailRenderer` holds the
  listener closure's mutable state: the `particles` array as a `seq` field,
  the `isDrawing` flag, and the two body style properties. It has one method
  per event listener, the `addParticles` loop, and one frame of `animate` as
  the original reverse splice loop. Each method is proved against the
  functions of `Particles`.

Time is an integer number of milliseconds, passed in where the source calls
`Date.now()`. Each `Math.random()` result is a caller-supplied real. The three
results one particle consumes are grouped into a `Draw` (x jitter, y jitter,
radius jitter, in the order the object literal evaluates them). Lemmas about
bounds assume each draw lies in [0, 1). Positions, radii and opacities are
exact reals.

`TrailRenderer.Valid()` ties the selection lock to the drawing state. The
constructor establishes it, and every handler and `Animate` preserves it. So
after any sequence of events starting from page load, selection is disabled
exactly when `isDrawing` holds.

Emission and ageing follow the code's constants exactly:

- The jitter `(Math.random() - 0.5) * 10` gives an offset in [-5, +5).
  `InEmitBounds` states this half-open bound, and `EmitBoundsReachable` shows
  that it is exact.
- One frame uses a 2 s lifetime, a 2 s fade divisor and the reverse splice
  loop.

Opacity stays within [0, 1] only while the clock has not gone back past a
particle's creation time. `Date.now()` is wall-clock time, and for a negative
age the code computes an opacity above 1. `AnimatePassAlphaInRange` therefore
takes `createdAt <= now` as a hypothesis.

## Model

| member | source | states |
|---|---|---|
| `Particles.NewParticle` | drawing.js:85-91 | given draws in [0, 1), the pushed particle lies within [x-5, x+5) x [y-5, y+5), has radius in [4, 6) (bounds in exact reals), opacity 1 and creation time `now` |
| `Particles.EmitBoundsReachable` | drawing.js:86-88 | the emission bounds are tight: every particle within them comes from some admissible triple of random draws |
| `Particles.Batch` | drawing.js:83-93 | one batch has one particle per draw, in push order, the k-th built from the k-th draw; with admissible draws every one is within the emission bounds |
| `Particles.Expired` | drawing.js:104-107 | the removal test `age > 2` on the age in seconds holds exactly when more than 2000 ms have passed since creation |
| `Particles.Faded` | drawing.js:104-113 | the opacity rewrite keeps position, radius and creation time and does not change whether the particle has expired; the opacity is 1 at age 0 and 1 minus elapsed ms / 2000 in general, and it lies in [0, 1] for an unexpired particle with non-negative age |
| `Particles.FadedAlphaNonIncreasing` | drawing.js:104-113 | a later clock never gives a higher opacity |
| `Particles.AnimatePass` | drawing.js:102-118 | after one frame, no particle is expired, each has opacity 1 - age / 2, and the collection has not grown |
| `Particles.LiveIndices` | drawing.js:102-110 | the strictly increasing list of exactly the indices of the unexpired particles |
| `Particles.AnimatePassAppend` | drawing.js:102-118 | a frame over a concatenation is the concatenation of the frames over each part |
| `Particles.AnimatePassIsOrderedFilter` | drawing.js:102-113 | one frame is exactly the order-preserving filter of the unexpired particles, each with its opacity recomputed; its k-th element comes from the k-th live index |
| `Particles.AnimatePassKeeps` | drawing.js:104-110 | the particle at index j is present after a frame exactly when at most 2000 ms have passed since its creation (both directions) |
| `Particles.AnimatePassAllExpired` | drawing.js:107-109 | once every particle is more than 2000 ms old, a frame leaves the collection empty |
| `Particles.AnimatePassAlphaInRange` | drawing.js:104-113 | when no creation time lies in the future, every opacity after a frame lies in [0, 1] |
| `Particles.AnimatePassTwice` | drawing.js:102-113 | a frame at now2 applied after a frame at now1 <= now2 equals a single frame at now2 |
| `Particles.AlphaNonIncreasingAcrossFrames` | drawing.js:104-113 | a particle alive at now2 survives both frames at now1 <= now2, and its opacity after the second frame is at most its opacity after the first |
| `Drawing.TrailRenderer.constructor` | drawing.js:25-27 | the initial state has no particles, is not drawing and leaves the selection style unset, so the selection lock invariant holds |
| `Drawing.TrailRenderer.DisableSelection` | drawing.js:30-33 | both style properties become 'none', so selection is disabled |
| `Drawing.TrailRenderer.EnableSelection` | drawing.js:35-38 | both style properties become 'auto', so selection is enabled |
| `Drawing.TrailRenderer.AddParticles` | drawing.js:83-93 | the array grows by exactly 5; the particles already present keep their values and positions; the new tail is the batch for the draws and lies within the emission bounds |
| `Drawing.TrailRenderer.MouseDown` | drawing.js:41-45 | drawing starts, both style properties become 'none' so selection is disabled, one batch is appended at the pointer, and the invariant holds |
| `Drawing.TrailRenderer.MouseUp` | drawing.js:47-50 | drawing stops, both style properties become 'auto' so selection is enabled, the particles are unchanged, and the invariant holds |
| `Drawing.TrailRenderer.MouseMove` | drawing.js:52-56 | one batch is appended while drawing; otherwise the particles are unchanged, and nothing else can change |
| `Drawing.TrailRenderer.TouchStart` | drawing.js:59-67 | as for mousedown, at the first touch point; the default action is always prevented |
| `Drawing.TrailRenderer.TouchEnd` | drawing.js:69-72 | as for mouseup: drawing stops, both style properties become 'auto', the particles are unchanged |
| `Drawing.TrailRenderer.TouchMove` | drawing.js:74-80 | as for mousemove, at the first touch point; the default action is prevented exactly while drawing |
| `Drawing.TrailRenderer.Animate` | drawing.js:99-118 | the reverse splice loop leaves exactly one frame's ordered filter of the old array; it visits every original index exactly once, from last to first, and finds the original particle at each, because a splice never shifts an index still to be visited |
| `Drawing.PointerScenario` | drawing.js:41-56 | press at (100, 100): 5 particles and drawing; move: 10; release: still 10 and idle; a frame more than 2 s after the last emission: none left |

## Left out

- Canvas creation, styling, `appendChild`, `resizeCanvas` and the resize listener (drawing.js:5-21): these are DOM side effects with no logic beyond copying the viewport size.
- `ctx.clearRect`, `fillStyle`, `beginPath`, `arc` and `fill` (drawing.js:98, 114-117): rendering goes through a foreign 2D API. Only the opacity that would be painted is modelled.
- `requestAnimationFrame` rescheduling and the first `animate()` call (drawing.js:120, 124): host scheduling. One frame is one `Animate(now)` call. The first call runs on an empty array and changes nothing.
- `console.log` (drawing.js:126): output only.
- Event objects: the handlers take the pointer coordinates (`clientX`/`clientY`, or those of `e.touches[0]`) as parameters. `preventDefault` is returned as a boolean. The `{ passive: false }` listener options are browser plumbing.
- Drawing.TrailRenderer.AddParticles: reads the clock once per call, while the source calls `Date.now()` once per pushed particle. The model assumes the clock does not tick within one synchronous handler.
- IEEE-754 rounding in `(Math.random() - 0.5) * 10`, `particleSize + Math.random() * 2` and `age / 2`: the model uses exact reals. The bounds [x-5, x+5), [y-5, y+5) and [4, 6) are bounds in exact reals. In doubles, a draw just below 1 can round `4 + r * 2` or `x + (r - 0.5) * 10` up to the excluded end point.
- Object identity of particles: each particle object is referenced only by the array and by the loop's local `p`, so particles are modelled as values and `p.alpha = …` as an element update.
