# A verified model of the tiled ray tracer

This project models the core of a small browser ray tracer, made of two files.

- **scene.js** holds the geometry and the render coordinator.
  - The value classes are `Vec`, `RGB`, `Sphere`, `Camera`, `Film` and `Light`.
  - Each sphere, camera and light is flattened into a fixed-length array.
  - The `Scene` class owns the live camera. On every `render` it:
    - starts a new generation;
    - sends the serialized scene to every worker;
    - cuts the canvas into a 5 x 5 grid of tiles on a job stack;
    - hands one tile to each worker.
  - Its `onWorkerMessage` draws each result that is not stale, hands the free worker the next tile, and presents the frame when no tile is pending.
- **worker.js** is the render worker.
  - It keeps the last scene it received.
  - For each tile it casts one ray per pixel and finds the nearest sphere hit in front of the eye.
  - It lights the hit point with every light and writes the colour into an RGBA byte buffer, which it posts back with the tile.

The model has five modules.

| module | file | contents |
|---|---|---|
| `Wrappers`, `Numeric` | numeric.dfy | `Option`, `clamp`, division, the JavaScript `Math` functions the renderer uses, the byte conversion of a `Uint8ClampedArray` |
| `Geometry` | geometry.dfy | vectors, colours, sphere intersection, camera moves, the `Camera` class, lights with shadow tests |
| `Serialization` | serialization.dfy | the 7/8/4-value wire layouts and the scene message, with round trips in both directions |
| `Coordinator` | coordinator.dfy | tiles, messages, the tile grid, and the `Scene` class with `render`, `onWorkerMessage` and `onKeyPress` |
| `Worker` | worker.dfy | the nearest-hit reduce, the lighting sum, pixel colours, the tile buffer and its layout, and the worker's message handler; also `RenderTwice` and `LateResultsPresentEarly`, two scenarios for the coordinator that need the worker's `Tile` constructor |

How the model records what the program does:

- **Mutable objects are classes.**
  - `Camera` is a class, specified by the value `CameraState`.
  - `Scene` is a class. It keeps logs of its effects: `outbox` holds every `postMessage`, `drawn` every `drawTile` call, and `presented` counts the frames shown.
  - The worker's global scope is the class `Worker.Scope`, holding the `scene` variable and the replies posted.
- **Loops of the source are loops here.**
  - `render` has three loops: `BroadcastScene`, `PushTiles`/`PushRow` and `DispatchJobs`.
  - `illuminate` and the tile renderer's nested loops are loops too.
  - Each loop is proved against a function that specifies its result.
- **`Scene.Valid` is the invariant of the coordinator.** Every tile of the current generation is either still on the stack or was posted to exactly one worker. `pending` is the frame size minus the draws since the render. Returned tiles carry no generation, so late results of an earlier generation count among those draws too.

Two behaviours of the code shape what the model proves:

- **Tile results are never stale.** The worker's `Tile` constructor copies only `x`, `y`, `width` and `height`. So the tile a worker posts back has no generation, and `tile.generation < this.generation` is false for it. `NewTile` and `RepliesAreNeverStale` state this. The coordinator never discards a result, not even one from an earlier generation. Such a late result is drawn and counted against the current frame. Once `NewTile` has dropped the generation, a tile of an earlier render equals the current render's tile for the same cell, for the same canvas, so the coordinator cannot tell which render a result belongs to. `LateResultsPresentEarly` shows the effect: the frame is presented after 25 results without a generation, whichever render they belong to, and `pending` then falls below 0.
- **Malformed scene messages are not detected.** `Scene.deserialize` does not check array lengths; the model accepts only well-formed messages (see "Left out").

## Model

| member | source | states |
|---|---|---|
| Numeric.Sqr | scene.js:1 | defines `sqr`: a number times itself |
| Numeric.Clamp | scene.js:2 | the result lies in [min, max]; it is `n` inside the range, `min` below it and `max` above it |
| Numeric.Quotient | scene.js:17 | for a non-zero divisor, the result times the divisor gives back the dividend |
| Numeric.ToUint8Clamped | worker.js:68-71 | a stored number becomes 0 at or below 0 and 255 at or above 255; in between it is within 0.5 of the value, and a whole value is kept exactly |
| Geometry.Vec3.Add | scene.js:20-22 | defines `add`: the coordinate-wise sum |
| Geometry.Vec3.Sub | scene.js:24-26 | defines `subtract`: the coordinate-wise difference |
| Geometry.Vec3.Scale | scene.js:28-30 | defines `scale`: every coordinate times the factor |
| Geometry.Vec3.Dot | scene.js:32-34 | defines `dot`: the sum of the coordinate-wise products |
| Geometry.Vec3.Length | scene.js:11-13 | defines the `length` getter: `Math.sqrt` of the sum of squared coordinates |
| Geometry.Vec3.Unit | scene.js:15-18 | defines `unit()`: every coordinate divided by the length |
| Geometry.Film.Project | scene.js:197-203 | defines `project`: the point of the film at the given fractions of its width and height, with y measured down from the top edge |
| Geometry.CameraState.Cast | scene.js:121-126 | defines `cast`: the unit direction from the eye to the projected film point |
| Geometry.Black | scene.js:38-40 | defines the getter `RGB.black`: (0, 0, 0) |
| Geometry.Red | scene.js:42-44 | defines the getter `RGB.red`: (255, 0, 0) |
| Geometry.Green | scene.js:46-48 | defines the getter `RGB.green`: (0, 255, 0) |
| Geometry.Blue | scene.js:50-52 | defines the getter `RGB.blue`: (0, 0, 255) |
| Geometry.RGB.Shade | scene.js:61-64 | channels scale by the factor clamped to [0, 1]: black at or below 0, unchanged at or above 1, non-negative channels never grow |
| Geometry.Sphere.Half | scene.js:75-76 | defines `dot` of `intersect`: the line direction dotted with the origin's offset from the centre |
| Geometry.Sphere.Discriminant | scene.js:75-77 | defines `sqrtTerm` of `intersect`: `dot` squared minus the squared distance to the centre plus the squared radius |
| Geometry.Sphere.Intersect | scene.js:74-88 | no root for a negative discriminant, the single root `-dot` for a zero one, two roots summing to `-2 * dot` otherwise, and these come in ascending order (strictly, for a genuine square root) |
| Geometry.IntersectAscending | scene.js:85-87 | with a non-negative square root the roots come in ascending order, as the source comment promises; this includes the empty and single-root cases |
| Geometry.RootsLieOnSphere | scene.js:74-88 | for a unit direction and a genuine square root, every returned root gives a point at distance `radius` from the centre |
| Geometry.Moved | scene.js:128-164 | defines the effect of each of the eight camera moves: the eye steps one unit along its axis, and the film origin steps with it unless the move is `moveEyeForward` or `moveEyeBack`; the camera methods and `onKeyPress` are specified by it |
| Geometry.PlaneMoveShiftsOneAxis | scene.js:128-156 | the six plane moves shift eye and film origin by the same unit step along one axis, so the eye stays where it was relative to the film |
| Geometry.EyeMoveChangesOnlyEyeZ | scene.js:158-164 | `moveEyeForward` and `moveEyeBack` change only `eye.z`, by +1 or -1, and leave the film alone |
| Geometry.MoveKeepsFilmSize | scene.js:128-164 | no move changes the film's width or height |
| Geometry.OppositeMovesCancel | scene.js:128-164 | each move is undone by its opposite |
| Geometry.Camera.constructor | scene.js:116-119 | the camera holds the eye and film it is given |
| Geometry.Camera.MoveLeft | scene.js:128-131 | eye and film origin both move one unit down the x axis |
| Geometry.Camera.MoveRight | scene.js:133-136 | eye and film origin both move one unit up the x axis |
| Geometry.Camera.MoveUp | scene.js:138-141 | eye and film origin both move one unit up the y axis |
| Geometry.Camera.MoveDown | scene.js:143-146 | eye and film origin both move one unit down the y axis |
| Geometry.Camera.MoveForward | scene.js:148-151 | eye and film origin both move one unit up the z axis |
| Geometry.Camera.MoveBack | scene.js:153-156 | eye and film origin both move one unit down the z axis |
| Geometry.Camera.MoveEyeForward | scene.js:158-160 | only the eye moves, one unit up the z axis |
| Geometry.Camera.MoveEyeBack | scene.js:162-164 | only the eye moves, one unit down the z axis |
| Geometry.Occludes | scene.js:219 | defines the test `sphere.intersect(point, direction).some(t => t >= EPSILON)` |
| Geometry.Shadowed | scene.js:218-224 | defines a blocked shadow ray: some sphere occludes it |
| Geometry.Light.DirectPower | scene.js:226-227 | defines the unshadowed term: power times the cosine between the surface and the light direction, over 4π times the squared distance |
| Geometry.Light.Illumination | scene.js:214-228 | defines what `illuminate` returns: 0 when the shadow ray is blocked, the unshadowed term otherwise; `Illuminate` is specified by it |
| Geometry.ShadowTest | scene.js:218-224 | the `for (let sphere of spheres)` loop with its early return reports exactly whether some sphere occludes the shadow ray |
| Geometry.Light.Illuminate | scene.js:214-228 | 0 when some sphere has a root at or beyond EPSILON on the shadow ray; otherwise power times the cosine over 4π times the squared distance |
| Serialization.DeserializeSphere | scene.js:106-112 | defines `Sphere.deserialize`: centre from values 0 to 2, radius from value 3, colour from values 4 to 6 |
| Serialization.DeserializeCamera | scene.js:183-187 | defines `Camera.deserialize`: eye from values 0 to 2, film origin from values 3 to 5, film width and height from values 6 and 7 |
| Serialization.DeserializeLight | scene.js:241-243 | defines `Light.deserialize`: origin from values 0 to 2, power from value 3 |
| Serialization.SerializeSphere | scene.js:90-104 | a sphere becomes 7 values |
| Serialization.SerializeCamera | scene.js:166-181 | a camera becomes 8 values |
| Serialization.SerializeLight | scene.js:230-239 | a light becomes 4 values |
| Serialization.SphereRoundTrip | scene.js:90-112 | deserializing a serialized sphere gives it back |
| Serialization.SphereLayoutRoundTrip | scene.js:90-112 | any 7-value array is the serialization of the sphere it decodes to |
| Serialization.CameraRoundTrip | scene.js:166-187 | deserializing a serialized camera gives it back |
| Serialization.CameraLayoutRoundTrip | scene.js:166-187 | any 8-value array is the serialization of the camera it decodes to |
| Serialization.LightRoundTrip | scene.js:230-243 | deserializing a serialized light gives it back |
| Serialization.LightLayoutRoundTrip | scene.js:230-243 | any 4-value array is the serialization of the light it decodes to |
| Serialization.SerializeSpheres | scene.js:309 | one 7-value array per sphere, in order |
| Serialization.DeserializeSpheres | scene.js:318 | one sphere per array, in order |
| Serialization.SerializeLights | scene.js:310 | one 4-value array per light, in order |
| Serialization.DeserializeLights | scene.js:319 | one light per array, in order |
| Serialization.SerializeScene | scene.js:303-312 | the message is well formed, carries the canvas size, and has one array per sphere and per light |
| Serialization.DeserializeScene | scene.js:314-321 | the scene keeps the canvas size and the number of spheres and lights |
| Serialization.SceneRoundTrip | scene.js:303-321 | a worker rebuilds exactly the scene that was serialized |
| Serialization.SceneDataRoundTrip | scene.js:303-321 | a well-formed message is the serialization of the scene it decodes to |
| Coordinator.IsStale | scene.js:327 | defines the test `tile.generation < this.generation`; a tile without a generation is never stale |
| Coordinator.OffsetIsProduct | scene.js:284-285 | `n` rounds of `v += step` from 0 give `n * step` |
| Coordinator.StepIndex | scene.js:284-285 | `for (v = 0; v < 5 * step; v += step)` enters its body exactly for the first five steps |
| Coordinator.TileAt | scene.js:281-289 | defines the job at a grid row and column: a fifth of the canvas wide and high, at the accumulated offsets, tagged with the generation |
| Coordinator.Grid | scene.js:284-291 | the first `n` tiles of the grid, row by row, are `n` tiles |
| Coordinator.Tiles | scene.js:281-291 | defines the jobs the nested loops push: the 25 grid tiles row by row, or none for a canvas without pixels; `Render` and `Valid` are written in it |
| Coordinator.TilesShape | scene.js:281-291 | 25 tiles for a non-empty canvas and none otherwise, each a fifth of the canvas wide and high and tagged with the generation; with sides that are multiples of 5, tile `k` sits at column `k % 5` and row `k / 5` in whole pixels |
| Coordinator.TilesCoverEachPixelOnce | scene.js:281-291 | every pixel of the canvas lies in exactly one tile of the frame |
| Coordinator.AxisCell | scene.js:281-285 | every point of [0, len) lies in one of the five cells |
| Coordinator.AxisCellUnique | scene.js:281-285 | no point lies in two cells |
| Coordinator.BroadcastScene | scene.js:274-279 | one `SET_SCENE` message carrying the serialized scene to each worker, in worker order |
| Coordinator.Broadcast | scene.js:274-279 | the broadcast holds one message per worker, and message `w` is `SET_SCENE` with the scene, posted to worker `w` |
| Coordinator.PopAt | scene.js:298 | defines what the `w`-th `jobs.pop()` of `render` yields: the `w`-th tile from the top, or `undefined` past the bottom |
| Coordinator.Dispatch | scene.js:295-300 | the dispatch holds one `RENDER_TILE` message per worker, and message `w` carries the `w`-th pop of the stack to worker `w` |
| Coordinator.PushTiles | scene.js:281-291 | the nested loops push exactly the 25 grid tiles, row by row |
| Coordinator.PushRow | scene.js:285-290 | the inner loop pushes the five tiles of one row, left to right |
| Coordinator.GridStep | scene.js:285-290 | pushing the tile at a row and column extends the grid by that tile |
| Coordinator.DispatchJobs | scene.js:295-300 | each worker gets the next pop of the stack, or `undefined` once it is empty; the remaining stack plus the posted tiles, most recent first, is the original stack |
| Coordinator.EmptyStackStep | scene.js:298-299 | a dispatch to a worker after the stack is empty posts no tile |
| Coordinator.DispatchKeepsStack | scene.js:295-300 | after the dispatch loop each tile is either left on the stack or was posted to exactly one worker |
| Coordinator.RecognisedKeys | scene.js:346-376 | the constant `KeyTable`, which maps each case label of the switch to its move, has exactly the ten keys w, W, a, ArrowLeft, s, S, d, ArrowRight, ArrowUp, ArrowDown |
| Coordinator.Scene.constructor | scene.js:247-267 | the pool has `hardwareConcurrency` workers, or 2 when that is unknown; nothing is posted, drawn or pending; `Valid` holds |
| Coordinator.Scene.Serialize | scene.js:303-312 | defines `serialize`: the canvas size, the camera, and every sphere and light in its array layout |
| Coordinator.Scene.PendingIsStackPlusOutstanding | scene.js:293-343 | under the invariant, `pending` is the stack size plus the tiles posted in this generation minus the draws since the render; late results of an earlier generation count among those draws |
| Coordinator.Scene.SerializeRoundTrip | scene.js:303-321 | the scene message is well formed, carries the canvas, and decodes to the live scene |
| Coordinator.Scene.PopJob | scene.js:298 | `jobs.pop()` gives the top tile and shrinks the stack, or gives `undefined` on an empty stack |
| Coordinator.Scene.Render | scene.js:269-301 | a new, larger generation; the scene broadcast, then one pop per worker; the stack left as the frame minus the dispatched tiles; `pending` is the frame size; `Valid` re-established |
| Coordinator.Scene.Begin | scene.js:269-293 | everything before the last loop: broadcast, grid pushed, `pending` set |
| Coordinator.Scene.Announce | scene.js:270-279 | the generation advances, the canvas is recorded, the stack is emptied, and the scene goes to every worker; `pending` and the drawn and presented logs are unchanged |
| Coordinator.Scene.Fill | scene.js:281-293 | the empty stack receives the frame's tiles and `pending` becomes their number; nothing else changes |
| Coordinator.Scene.Hand | scene.js:295-300 | one pop per worker, posted in worker order; the remaining stack plus the posted tiles, most recent first, is the stack it started from; nothing else changes |
| Coordinator.Scene.OnWorkerMessage | scene.js:323-344 | a stale result changes nothing. Any other result is drawn; the worker gets the next tile if one is left; `pending` drops by one; the frame is presented when it reaches 0; `Valid` is kept |
| Coordinator.Scene.Accept | scene.js:332-343 | the effects of a result that is not stale, keeping `Valid` |
| Coordinator.Scene.Refill | scene.js:334-339 | the top tile moves from the stack to a message for the worker, so the stack plus the posted tiles is unchanged |
| Coordinator.Scene.Countdown | scene.js:341-343 | `pending` drops by one, and the frame is presented exactly when it reaches 0 |
| Coordinator.Scene.OnKeyPress | scene.js:346-379 | true and the camera moved by `Moved` with the move `KeyTable` gives the key, for the ten keys; false and no change for any other key |
| Worker.NewTile | worker.js:21-26 | the tile keeps x, y, width and height, has no generation, and is stale for no generation |
| Worker.AscendingRoots | scene.js:85-87 | with a non-negative square root every sphere's roots are ascending |
| Worker.Closer | worker.js:39-48 | defines the reduce callback: the first root at or beyond EPSILON below the accumulator, with its sphere, else the accumulator |
| Worker.NearestAmong | worker.js:39-49 | defines the reduce: the callback folded over the spheres in order, from a miss |
| Worker.CloserPicksLeast | worker.js:39-48 | on ascending roots the callback keeps the accumulator when no root at or beyond EPSILON is below it, and otherwise returns the sphere with its least such root |
| Worker.NearestStep | worker.js:39-49 | one step of the reduce keeps the nearest-hit property |
| Worker.KeepStep | worker.js:48 | keeping the accumulator is correct when the sphere has no nearer hit |
| Worker.TakeStep | worker.js:42-45 | taking the sphere's least hit is correct when it is below the accumulator |
| Worker.NearestAmongIsNearest | worker.js:39-49 | a miss exactly when no sphere has a root at or beyond EPSILON; otherwise the least such root over all spheres, carried by the first sphere that has it |
| Worker.Scan | worker.js:42-48 | the `for (let t of ts)` loop with its early return computes the callback's result |
| Worker.FindNearest | worker.js:39-49 | the reduce over all spheres, in order |
| Worker.ShadowedLightsAddNothing | worker.js:58-60 | lights whose shadow rays are all blocked add 0 |
| Worker.TotalPower | worker.js:58-60 | defines the lights' reduce: the sum from 0 of every light's illumination, in order |
| Worker.SumPower | worker.js:58-60 | the sum from 0 of every light's `illuminate`, in order |
| Worker.PixelRay | worker.js:37 | defines the ray `camera.cast(x / canvas.width, y / canvas.height)` |
| Worker.ShadeHit | worker.js:55-62 | defines the colour of a hit: the sphere's colour shaded by the total light at `eye + t * ray`, with the normal taken from the centre |
| Worker.PixelColor | worker.js:36-65 | defines the colour of one pixel: the nearest sphere's colour, shaded by the total light at the hit point, or grey (180, 180, 180) on a miss |
| Worker.PixelColorIsNearestShade | worker.js:36-65 | the ray through (x/W, y/H) hits nothing in front of the eye and the pixel is (180, 180, 180); or it is the nearest sphere's colour, shaded by the total light at the hit point |
| Worker.UnlitHitIsBlack | worker.js:54-62 | a hit point that no light reaches is black |
| Worker.ShadePixel | worker.js:36-65 | the loop body computes the pixel colour |
| Worker.Channel | worker.js:68-71 | alpha is always 255, and each background channel is 180 |
| Worker.TileBytes | worker.js:30 | the buffer holds `4 * width * height` bytes |
| Worker.ByteAt | worker.js:67-71 | defines byte `k` of a rendered tile: channel `k % 4` of the pixel in row `(k / 4) / width` and column `(k / 4) % width` |
| Worker.PixelIndex | worker.js:67-71 | pixel (i, j) owns bytes `4 * (j + i * w)` to `+ 3`, and they lie inside the buffer |
| Worker.PixelIndexOneToOne | worker.js:67-71 | distinct (row, column, channel) triples write distinct bytes, so every byte is written once |
| Worker.PixelIndexOnto | worker.js:30-71 | every byte of the buffer belongs to some pixel and channel of the tile |
| Worker.ByteAtPixel | worker.js:67-71 | the byte at `4 * (j + i * w) + c` is channel `c` of pixel (i, j) |
| Worker.PixelLayout | worker.js:28-76 | byte `4 * (j + i * width) + c` of the rendered tile is channel `c` (red, green, blue, alpha) of the colour at canvas point (x + j, y + i); the alpha byte is 255 |
| Worker.WrittenAll | worker.js:75 | a fully written buffer is the rendered tile |
| Worker.WrittenExtend | worker.js:67-71 | storing one pixel after those before it extends the written prefix |
| Worker.WrittenPrefix | worker.js:67-71 | bytes left untouched stay written |
| Worker.WrittenFour | worker.js:67-71 | four correct bytes extend the prefix by one pixel |
| Worker.WritePixel | worker.js:67-71 | the four stores write red, green, blue and alpha, clamped, at `k` to `k + 3` and nothing else |
| Worker.RenderPixel | worker.js:36-71 | one inner-loop pass writes the next pixel and leaves every later byte unchanged |
| Worker.RenderRow | worker.js:35-72 | one outer-loop pass writes the next row and leaves every later byte unchanged |
| Worker.Render | worker.js:28-76 | `render` returns `4 * width * height` bytes, equal to the rendered tile |
| Worker.FrameTilesAreWhole | scene.js:281-291 | when the canvas sides are multiples of 5, every tile the coordinator sends has whole dimensions |
| Worker.Scope.constructor | worker.js:3 | no scene and no replies |
| Worker.Scope.OnMessage | worker.js:5-18 | `SET_SCENE` replaces the scene with the decoded message. `RENDER_TILE` with a scene posts the tile without its generation, with its rendered bytes; without a scene or payload it changes nothing. Other types change nothing |
| Worker.RepliesAreNeverStale | worker.js:13-15 | no reply a worker posts is stale for any generation |
| Worker.RenderTwice | scene.js:269-301 | two renders of a 5 x 5 canvas by 30 workers: generation 2, the stack empty, 25 tiles pending, nothing drawn or presented |
| Worker.LateResultsPresentEarly | scene.js:323-343 | after two renders, `late` results without a generation are all drawn; `pending` is `25 - late`; the second frame is presented once 25 have arrived, whichever render they belong to, and never again |

## Left out

- Floating point is not modelled; numbers are exact reals.
  - Rounding, `Infinity` and `NaN` do not exist in the model.
  - Division by zero gives 0 (`Numeric.Quotient`) where IEEE arithmetic would give an infinity or `NaN`. This covers `unit()` of a zero vector, `x / canvas.width` on a zero-width canvas, and the cosine for a zero normal.
  - The reduce's initial accumulator `t: Infinity` is the `NoHit` constructor.
- Coordinator.TilesShape: the 25 tiles hold only in exact reals. With doubles, when a canvas side is not a multiple of 5 the sums `y += height` and `x += width` of scene.js:284-285 may stay just below the side after five steps, which adds a sixth row or column.
- `Math.sqrt` and `Math.PI` are parameters (`Numeric.MathLib`), because no square root function exists over reals here. Lemmas that need a genuine square root say so with `SqrtAt` or `SqrtNonnegative`.
- `Float64Array` and `Uint8ClampedArray` are modelled as a sequence of reals and an array of bytes.
- `performance.now()` is modelled as a counter that grows by one on each render.
- Browser workers and message passing are reduced to logs.
  - Worker objects are indices.
  - `postMessage` and the canvas's `drawTile` and `render` append to logs.
  - Message delivery, its asynchrony and its ordering are not modelled: `OnWorkerMessage` accepts any tile from any worker at any time.
- `navigator.hardwareConcurrency` is a constructor parameter.
- Coordinator.Scene.constructor: starts with generation 0, a 0 x 0 canvas, an empty stack and `pending` 0. The source leaves these `undefined` until the first `render`, so an `onWorkerMessage` before it would throw at `this.canvas.drawTile`. No worker can reply before the first render, so this state is never reached.
- `onKeyPress` reads the global `event.key`, not its argument; the model takes the key as a parameter.
- The camera mutates its `Vec` objects in place. The model holds them as values, so a `Vec` shared between the eye, the film origin or another object is not modelled.
- Worker.Scope.OnMessage: accepts only well-formed scene messages. `Sphere`, `Camera` and `Light.deserialize` read only the first 7, 8 or 4 values, so a longer array still gives a correct object; the model does not cover that case. A shorter array leaves fields `undefined`, and `NaN` appears once arithmetic touches them; reals cannot represent either.
- Worker.Scope.OnMessage: a `RENDER_TILE` is modelled only for tiles with whole, non-negative sides, the requirement of `Worker.Render`; tiles with fractional sides are described under `Worker.Render` below.
- Worker.Scope.OnMessage: a `RENDER_TILE` before any `SET_SCENE`, or with no payload, throws a `TypeError` in the source. The model makes no change and no reply; the exception and its error event are not modelled.
- Worker.Render: requires whole, non-negative tile width and height. Tiles with fractional sides arise only when a canvas side is not a multiple of 5. For those, the source truncates the buffer length, runs each loop up to the ceiling, writes overlapping byte ranges and drops stores past the end; the model does not cover any of this.
- Worker.Render: `(j + i * width) << 2` is modelled as multiplication by 4. The source's 32-bit shift wraps for tiles of 2^29 pixels or more.
- index.js is not part of this model. It holds the page set-up, the `Canvas` wrapper, the key bindings and a separate single-threaded renderer.
