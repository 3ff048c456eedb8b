/**
 * The render coordinator of scene.js: the `Scene` class that owns the live camera, starts a
 * generation on every `render`, cuts the canvas into a 5 x 5 grid of tiles kept on a job
 * stack, hands one tile to each worker, and collects the results in `onWorkerMessage`.
 *
 * Worker messages and canvas calls are recorded in logs: `outbox` for every `postMessage`,
 * `drawn` for every `canvas.drawTile`, `presented` counts `canvas.render` calls.
 */
module Coordinator {
  import opened Wrappers
  import opened Numeric
  import opened Geometry
  import opened Serialization

  /** The grid is `GridSize` tiles wide and `GridSize` tiles high. */
  const GridSize: nat := 5

  /**
   * A tile of the frame. The jobs `render` creates carry their generation; a tile that comes
   * back from a worker carries `None`, JavaScript's `undefined`.
   */
  datatype Tile = Tile(x: real, y: real, width: real, height: real, generation: Option<nat>)

  /** The messages a worker understands; `Other` is any other `type`. */
  datatype Message = SetScene(data: SceneData) | RenderTile(job: Option<Tile>) | Other(kind: string)

  /** One `postMessage` to the worker with the given index. */
  datatype Post = Post(worker: nat, message: Message)

  /** One `canvas.drawTile(tile, pixels)`. */
  datatype Drawn = Drawn(tile: Tile, pixels: seq<Byte>)

  /** `tile.generation < this.generation`; with `undefined` this comparison is false. */
  predicate IsStale(tile: Tile, generation: nat)
  {
    match tile.generation
    case None => false
    case Some(g) => g < generation
  }

  function Min(a: int, b: int): int { if a <= b then a else b }

  /** The value of `v` after `n` rounds of `v += step` from 0. */
  function Offset(n: nat, step: real): real
  {
    if n == 0 then 0.0 else Offset(n - 1, step) + step
  }

  lemma {:induction false} OffsetIsProduct(n: nat, step: real)
    ensures Offset(n, step) == n as real * step
  {
    if n > 0 {
      OffsetIsProduct(n - 1, step);
    }
  }

  /** The tile at a grid row and column: `canvas.width / 5` by `canvas.height / 5`. */
  function TileAt(c: Canvas, gen: nat, row: nat, col: nat): Tile
  {
    var w := c.width as real / GridSize as real;
    var h := c.height as real / GridSize as real;
    Tile(Offset(col, w), Offset(row, h), w, h, Some(gen))
  }

  /** The first `n` tiles of the grid in the order `render` pushes them, row by row. */
  function Grid(c: Canvas, gen: nat, n: nat): (tiles: seq<Tile>)
    ensures |tiles| == n
  {
    if n == 0 then []
    else Grid(c, gen, n - 1) + [TileAt(c, gen, (n - 1) / GridSize, (n - 1) % GridSize)]
  }

  /** Every job the nested loops of `render` push; none when the canvas has no pixels. */
  function Tiles(c: Canvas, gen: nat): seq<Tile>
  {
    if c.width == 0 || c.height == 0 then [] else Grid(c, gen, GridSize * GridSize)
  }

  lemma {:induction false} GridAt(c: Canvas, gen: nat, n: nat, k: nat)
    requires k < n
    ensures Grid(c, gen, n)[k] == TileAt(c, gen, k / GridSize, k % GridSize)
  {
    if k < n - 1 {
      GridAt(c, gen, n - 1, k);
    }
  }

  /** The job at position `k` of the stack `render` builds. */
  lemma TilesAt(c: Canvas, gen: nat, k: nat)
    requires k < |Tiles(c, gen)|
    ensures c.width > 0 && c.height > 0
    ensures Tiles(c, gen)[k] == TileAt(c, gen, k / GridSize, k % GridSize)
  {
    GridAt(c, gen, GridSize * GridSize, k);
  }

  /**
   * `render` produces 25 tiles for a non-empty canvas, each of size (W/5) x (H/5) and tagged
   * with the generation; when W and H are multiples of 5 all coordinates are whole pixels.
   */
  lemma TilesShape(c: Canvas, gen: nat)
    ensures |Tiles(c, gen)| == if c.width > 0 && c.height > 0 then 25 else 0
    ensures forall k :: 0 <= k < |Tiles(c, gen)| ==>
              && Tiles(c, gen)[k].generation == Some(gen)
              && Tiles(c, gen)[k].width == c.width as real / 5.0
              && Tiles(c, gen)[k].height == c.height as real / 5.0
    ensures c.width % 5 == 0 && c.height % 5 == 0 ==>
              forall k :: 0 <= k < |Tiles(c, gen)| ==>
                && Tiles(c, gen)[k].width == (c.width / 5) as real
                && Tiles(c, gen)[k].height == (c.height / 5) as real
                && Tiles(c, gen)[k].x == ((k % 5) * (c.width / 5)) as real
                && Tiles(c, gen)[k].y == ((k / 5) * (c.height / 5)) as real
  {
    forall k | 0 <= k < |Tiles(c, gen)|
      ensures Tiles(c, gen)[k] == TileAt(c, gen, k / GridSize, k % GridSize)
    {
      TilesAt(c, gen, k);
    }
    if c.width % 5 == 0 && c.height % 5 == 0 {
      forall k | 0 <= k < |Tiles(c, gen)|
        ensures Tiles(c, gen)[k].x == ((k % 5) * (c.width / 5)) as real
        ensures Tiles(c, gen)[k].y == ((k / 5) * (c.height / 5)) as real
      {
        TilesAt(c, gen, k);
        WholeOffset(c.width, k % 5);
        WholeOffset(c.height, k / 5);
      }
    }
  }

  /** When `len` is a multiple of 5, the `i`-th step of a fifth of `len` is a whole number. */
  lemma WholeOffset(len: nat, i: nat)
    requires len % 5 == 0
    ensures len as real / 5.0 == (len / 5) as real
    ensures Offset(i, len as real / 5.0) == (i * (len / 5)) as real
  {
    var q := len / 5;
    assert len as real == 5.0 * q as real;
    OffsetIsProduct(i, len as real / 5.0);
  }

  /** Pixel `(px, py)` lies inside the tile. */
  predicate Covers(t: Tile, px: real, py: real)
  {
    t.x <= px < t.x + t.width && t.y <= py < t.y + t.height
  }

  /** The cell of a 5-cell split of `[0, len)` that holds `p`. */
  lemma AxisCell(len: real, p: real) returns (cell: nat)
    requires 0.0 <= p < len
    ensures cell < GridSize
    ensures var step := len / GridSize as real;
            Offset(cell, step) <= p < Offset(cell, step) + step
  {
    var step := len / GridSize as real;
    var q := p / step;
    assert q * step == p;
    assert len == 5.0 * step;
    DivLt(p, len, step);
    assert len / step == 5.0;
    cell := q.Floor;
    ScaledFloor(p, step, cell);
    OffsetIsProduct(cell, step);
  }

  lemma ScaledFloor(p: real, step: real, cell: int)
    requires step > 0.0 && cell == (p / step).Floor
    ensures cell as real * step <= p < cell as real * step + step
  {
    var q := p / step;
    assert q * step == p;
    var f := cell as real;
    assert f <= q < f + 1.0;
    MulLt(q, f + 1.0, step);
    assert (f + 1.0) * step == f * step + step;
    assert p < f * step + step;
    MulLe(f, q, step);
  }

  lemma DivLt(a: real, b: real, s: real)
    requires a < b && 0.0 < s
    ensures a / s < b / s
  {
  }

  lemma MulLe(a: real, b: real, s: real)
    requires a <= b && 0.0 <= s
    ensures a * s <= b * s
  {
  }

  lemma MulLt(a: real, b: real, s: real)
    requires a < b && 0.0 < s
    ensures a * s < b * s
  {
  }

  /** At most one cell of a split into equal steps holds a point. */
  lemma AxisCellUnique(step: real, p: real, c1: nat, c2: nat)
    requires step > 0.0
    requires Offset(c1, step) <= p < Offset(c1, step) + step
    requires Offset(c2, step) <= p < Offset(c2, step) + step
    ensures c1 == c2
  {
    OffsetIsProduct(c1, step);
    OffsetIsProduct(c2, step);
    if c1 < c2 {
      MulLe(c1 as real + 1.0, c2 as real, step);
    } else if c2 < c1 {
      MulLe(c2 as real + 1.0, c1 as real, step);
    }
  }

  /** The tiles of a render cover every pixel of the canvas, and no pixel twice. */
  lemma TilesCoverEachPixelOnce(c: Canvas, gen: nat, px: nat, py: nat)
    requires px < c.width && py < c.height
    ensures exists k :: 0 <= k < |Tiles(c, gen)| && Covers(Tiles(c, gen)[k], px as real, py as real)
    ensures forall k1, k2 ::
              && 0 <= k1 < |Tiles(c, gen)| && Covers(Tiles(c, gen)[k1], px as real, py as real)
              && 0 <= k2 < |Tiles(c, gen)| && Covers(Tiles(c, gen)[k2], px as real, py as real)
              ==> k1 == k2
  {
    var tiles := Tiles(c, gen);
    var col := AxisCell(c.width as real, px as real);
    var row := AxisCell(c.height as real, py as real);
    var k := GridSize * row + col;
    assert k / GridSize == row && k % GridSize == col;
    TilesAt(c, gen, k);
    assert Covers(tiles[k], px as real, py as real);
    forall k1, k2 |
      && 0 <= k1 < |tiles| && Covers(tiles[k1], px as real, py as real)
      && 0 <= k2 < |tiles| && Covers(tiles[k2], px as real, py as real)
      ensures k1 == k2
    {
      TilesAt(c, gen, k1);
      TilesAt(c, gen, k2);
      var stepX := c.width as real / GridSize as real;
      var stepY := c.height as real / GridSize as real;
      AxisCellUnique(stepX, px as real, k1 % GridSize, k2 % GridSize);
      AxisCellUnique(stepY, py as real, k1 / GridSize, k2 / GridSize);
      assert k1 == GridSize * (k1 / GridSize) + k1 % GridSize;
      assert k2 == GridSize * (k2 / GridSize) + k2 % GridSize;
    }
  }

  /** The messages of the broadcast loop of `render`: the scene to every worker. */
  function Broadcast(n: nat, data: SceneData): (posts: seq<Post>)
    ensures |posts| == n
    ensures forall w | 0 <= w < n :: posts[w] == Post(w, SetScene(data))
  {
    if n == 0 then [] else Broadcast(n - 1, data) + [Post(n - 1, SetScene(data))]
  }

  /** What the `w`-th `jobs.pop()` of `render` yields: the top of the stack, or `undefined`. */
  function PopAt(tiles: seq<Tile>, w: nat): Option<Tile>
  {
    if w < |tiles| then Some(tiles[|tiles| - 1 - w]) else None
  }

  /** The messages of the dispatch loop of `render`: one tile (or `undefined`) per worker. */
  function Dispatch(tiles: seq<Tile>, n: nat): (posts: seq<Post>)
    ensures |posts| == n
    ensures forall w | 0 <= w < n :: posts[w] == Post(w, RenderTile(PopAt(tiles, w)))
  {
    if n == 0 then [] else Dispatch(tiles, n - 1) + [Post(n - 1, RenderTile(PopAt(tiles, n - 1)))]
  }

  /** The tiles carried by the `RENDER_TILE` messages of a log, in posting order. */
  function Sent(posts: seq<Post>): seq<Tile>
  {
    if posts == [] then []
    else
      var last := posts[|posts| - 1];
      Sent(posts[..|posts| - 1]) +
        (if last.message.RenderTile? && last.message.job.Some? then [last.message.job.value] else [])
  }

  function Reversed(s: seq<Tile>): (r: seq<Tile>)
    ensures |r| == |s|
  {
    if s == [] then [] else [s[|s| - 1]] + Reversed(s[..|s| - 1])
  }

  lemma SentAppend(posts: seq<Post>, p: Post)
    ensures Sent(posts + [p]) ==
      Sent(posts) + (if p.message.RenderTile? && p.message.job.Some? then [p.message.job.value] else [])
  {
    assert (posts + [p])[..|posts|] == posts;
  }

  lemma ReversedAppend(s: seq<Tile>, t: Tile)
    ensures Reversed(s + [t]) == [t] + Reversed(s)
  {
    assert (s + [t])[..|s|] == s;
  }

  /**
   * Moving the top of the stack into a posted `RENDER_TILE` message keeps the stack plus
   * the posted tiles (most recent first) the same.
   */
  lemma StackMove(jobs: seq<Tile>, outbox: seq<Post>, since: nat, post: Post)
    requires jobs != [] && since <= |outbox|
    requires post.message == RenderTile(Some(jobs[|jobs| - 1]))
    ensures jobs[..|jobs| - 1] + Reversed(Sent((outbox + [post])[since..]))
            == jobs + Reversed(Sent(outbox[since..]))
  {
    var top := jobs[|jobs| - 1];
    var s := Sent(outbox[since..]);
    assert (outbox + [post])[since..] == outbox[since..] + [post];
    SentAppend(outbox[since..], post);
    ReversedAppend(s, top);
    assert jobs == jobs[..|jobs| - 1] + [top];
  }

  /** `onKeyPress`'s switch as a table: ten keys, eight moves. */
  const KeyTable: map<string, Move> := map[
    "w" := Forward, "W" := EyeForward,
    "a" := Left, "ArrowLeft" := Left,
    "s" := Back, "S" := EyeBack,
    "d" := Right, "ArrowRight" := Right,
    "ArrowUp" := Up, "ArrowDown" := Down
  ]

  /** The live scene, which is also the render coordinator. */
  class Scene {
    const camera: Camera
    const spheres: seq<Sphere>
    const lights: seq<Light>
    /** The size of the worker pool. */
    const workers: nat

    var generation: nat
    var canvas: Canvas
    /** The job stack; its top is the last element. */
    var jobs: seq<Tile>
    var pending: int

    var outbox: seq<Post>
    var drawn: seq<Drawn>
    var presented: nat

    /** Where the current generation's dispatches and draws begin in the logs. */
    ghost var since: nat
    ghost var mark: nat
    /** The tiles of the current generation. */
    ghost var frame: seq<Tile>

    /**
     * Every tile of the current generation is either still on the stack or has been posted
     * to a worker exactly once, and `pending` is the frame size minus the draws since the
     * render. Returned tiles carry no generation, so late results of an earlier generation
     * count among those draws too.
     */
    ghost predicate Valid()
      reads this
    {
      && since <= |outbox|
      && mark <= |drawn|
      && frame == Tiles(canvas, generation)
      && jobs + Reversed(Sent(outbox[since..])) == frame
      && pending == |frame| - (|drawn| - mark)
    }

    /**
     * The tiles of the current generation posted to workers, minus the draws since the
     * render. Late results of an earlier generation count among those draws, so this can
     * fall below the number of current tiles still out, and below 0.
     */
    ghost function Outstanding(): int
      reads this
      requires since <= |outbox| && mark <= |drawn|
    {
      |Sent(outbox[since..])| - (|drawn| - mark)
    }

    /** `pending` is the stack size plus the posted tiles minus the draws since the render. */
    lemma PendingIsStackPlusOutstanding()
      requires Valid()
      ensures pending == |jobs| + Outstanding()
    {
      assert |jobs + Reversed(Sent(outbox[since..]))| == |jobs| + |Sent(outbox[since..])|;
    }

    /**
     * The constructor; `startWorkers` sizes the pool by `navigator.hardwareConcurrency`,
     * or 2 when that is 0 or absent.
     */
    constructor (camera: Camera, spheres: seq<Sphere>, lights: seq<Light>, hardwareConcurrency: nat)
      ensures Valid()
      ensures this.camera == camera && this.spheres == spheres && this.lights == lights
      ensures workers == if hardwareConcurrency == 0 then 2 else hardwareConcurrency
      ensures generation == 0 && canvas == Canvas(0, 0) && jobs == [] && pending == 0
      ensures outbox == [] && drawn == [] && presented == 0
    {
      this.camera := camera;
      this.spheres := spheres;
      this.lights := lights;
      workers := if hardwareConcurrency == 0 then 2 else hardwareConcurrency;
      generation := 0;
      canvas := Canvas(0, 0);
      jobs := [];
      pending := 0;
      outbox := [];
      drawn := [];
      presented := 0;
      since := 0;
      mark := 0;
      frame := [];
    }

    /** The scene as `serialize` reads it once `this.canvas` is `c`. */
    function Live(c: Canvas): Snapshot
      reads camera
    {
      Snapshot(c, camera.State(), spheres, lights)
    }

    /** `serialize` once `this.canvas` is `c`. */
    function Serialize(c: Canvas): SceneData
      reads camera
    {
      SerializeScene(Live(c))
    }

    /**
     * A message `serialize` builds is well formed, carries the canvas size, and a worker
     * rebuilds exactly this scene from it.
     */
    lemma SerializeRoundTrip(c: Canvas)
      ensures WellFormed(Serialize(c)) && Serialize(c).canvas == c
      ensures DeserializeScene(Serialize(c)) == Live(c)
    {
      SceneRoundTrip(Live(c));
    }

    /** `this.jobs.pop()`: the top of the stack, or `undefined` when it is empty. */
    method PopJob() returns (job: Option<Tile>)
      modifies this
      ensures job == (if old(jobs) == [] then None else Some(old(jobs)[|old(jobs)| - 1]))
      ensures jobs == if old(jobs) == [] then [] else old(jobs)[..|old(jobs)| - 1]
      ensures generation == old(generation) && canvas == old(canvas) && pending == old(pending)
      ensures outbox == old(outbox) && drawn == old(drawn) && presented == old(presented)
      ensures since == old(since) && mark == old(mark) && frame == old(frame)
    {
      if jobs == [] {
        job := None;
      } else {
        job := Some(jobs[|jobs| - 1]);
        jobs := jobs[..|jobs| - 1];
      }
    }

    /**
     * `render(canvas)`: a new generation, the scene broadcast to every worker, the 5 x 5
     * tiles pushed row by row, `pending` set to their number, and one pop per worker.
     */
    method Render(c: Canvas)
      modifies this
      ensures generation == old(generation) + 1 && canvas == c
      ensures drawn == old(drawn) && presented == old(presented)
      ensures frame == Tiles(c, generation) && pending == |frame|
      ensures jobs == frame[..|frame| - Min(workers, |frame|)]
      ensures outbox == old(outbox) + Broadcast(workers, Serialize(c)) + Dispatch(frame, workers)
      ensures Valid()
    {
      Begin(c);
      Hand();
    }

    /** Everything `render` does before its last loop. */
    method Begin(c: Canvas)
      modifies this
      ensures generation == old(generation) + 1 && canvas == c
      ensures drawn == old(drawn) && presented == old(presented) && mark == |drawn|
      ensures frame == Tiles(c, generation) && jobs == frame && pending == |frame|
      ensures outbox == old(outbox) + Broadcast(workers, Serialize(c)) && since == |outbox|
    {
      Announce(c);
      Fill();
    }

    /** A new generation, an empty stack, and the scene posted to every worker. */
    method Announce(c: Canvas)
      modifies this
      ensures generation == old(generation) + 1 && canvas == c
      ensures drawn == old(drawn) && presented == old(presented) && mark == |drawn|
      ensures outbox == old(outbox) + Broadcast(workers, Serialize(c)) && since == |outbox|
      ensures jobs == [] && pending == old(pending) && frame == old(frame)
    {
      var scene := BroadcastScene(Serialize(c), workers);
      generation, canvas, jobs, mark := generation + 1, c, [], |drawn|;
      outbox, since := outbox + scene, |outbox| + |scene|;
    }

    /** The nested loops of `render`: the job stack refilled with the frame's tiles. */
    method Fill()
      modifies this
      ensures generation == old(generation) && canvas == old(canvas)
      ensures drawn == old(drawn) && presented == old(presented) && mark == old(mark)
      ensures outbox == old(outbox) && since == old(since)
      ensures frame == Tiles(canvas, generation) && jobs == frame && pending == |frame|
    {
      var tiles := PushTiles(canvas, generation);
      frame, jobs, pending := tiles, tiles, |tiles|;
    }

    /** The last loop of `render`. */
    method Hand()
      requires since == |outbox|
      modifies this
      ensures generation == old(generation) && canvas == old(canvas) && pending == old(pending)
      ensures drawn == old(drawn) && presented == old(presented) && mark == old(mark)
      ensures frame == old(frame) && since == old(since)
      ensures jobs == old(jobs)[..|old(jobs)| - Min(workers, |old(jobs)|)]
      ensures outbox == old(outbox) + Dispatch(old(jobs), workers)
      ensures jobs + Reversed(Sent(outbox[since..])) == old(jobs)
    {
      var rest, posts := DispatchJobs(jobs, workers);
      Suffix(outbox, posts);
      jobs, outbox := rest, outbox + posts;
    }

    /**
     * `onWorkerMessage`: a result older than the current generation is ignored; any other
     * result is drawn, its worker is refilled from the stack if the stack is not empty,
     * `pending` drops by one, and the frame is presented when it reaches 0.
     */
    method OnWorkerMessage(worker: nat, tile: Tile, pixels: seq<Byte>)
      requires Valid()
      modifies this
      ensures Valid()
      ensures generation == old(generation) && canvas == old(canvas)
      ensures IsStale(tile, generation) ==>
                && jobs == old(jobs) && pending == old(pending) && outbox == old(outbox)
                && drawn == old(drawn) && presented == old(presented)
      ensures !IsStale(tile, generation) ==>
                && drawn == old(drawn) + [Drawn(tile, pixels)]
                && (old(jobs) == [] ==> jobs == [] && outbox == old(outbox))
                && (old(jobs) != [] ==>
                      && jobs == old(jobs)[..|old(jobs)| - 1]
                      && outbox == old(outbox) + [Post(worker, RenderTile(Some(old(jobs)[|old(jobs)| - 1])))])
                && pending == old(pending) - 1
                && presented == old(presented) + (if pending == 0 then 1 else 0)
      ensures since == old(since) && mark == old(mark) && frame == old(frame)
    {
      if IsStale(tile, generation) {
        return;
      }
      Accept(worker, tile, pixels);
    }

    /** `onWorkerMessage` for a result of the current generation. */
    method Accept(worker: nat, tile: Tile, pixels: seq<Byte>)
      requires Valid()
      modifies this
      ensures Valid()
      ensures generation == old(generation) && canvas == old(canvas)
      ensures drawn == old(drawn) + [Drawn(tile, pixels)]
      ensures old(jobs) == [] ==> jobs == [] && outbox == old(outbox)
      ensures old(jobs) != [] ==>
                && jobs == old(jobs)[..|old(jobs)| - 1]
                && outbox == old(outbox) + [Post(worker, RenderTile(Some(old(jobs)[|old(jobs)| - 1])))]
      ensures pending == old(pending) - 1
      ensures presented == old(presented) + (if pending == 0 then 1 else 0)
      ensures since == old(since) && mark == old(mark) && frame == old(frame)
    {
      drawn := drawn + [Drawn(tile, pixels)];
      if |jobs| > 0 {
        Refill(worker);
      }
      Countdown();
    }

    /** `if (--this.pending === 0) this.canvas.render()`. */
    method Countdown()
      modifies this
      ensures pending == old(pending) - 1
      ensures presented == old(presented) + (if pending == 0 then 1 else 0)
      ensures generation == old(generation) && canvas == old(canvas) && jobs == old(jobs)
      ensures outbox == old(outbox) && drawn == old(drawn)
      ensures since == old(since) && mark == old(mark) && frame == old(frame)
    {
      pending := pending - 1;
      if pending == 0 {
        presented := presented + 1;
      }
    }

    /** Pops the top of a non-empty stack and posts it to `worker`. */
    method Refill(worker: nat)
      requires jobs != [] && since <= |outbox|
      modifies this
      ensures since == old(since) && mark == old(mark) && frame == old(frame)
      ensures jobs == old(jobs)[..|old(jobs)| - 1]
      ensures outbox == old(outbox) + [Post(worker, RenderTile(Some(old(jobs)[|old(jobs)| - 1])))]
      ensures jobs + Reversed(Sent(outbox[since..])) == old(jobs) + Reversed(Sent(old(outbox)[since..]))
      ensures generation == old(generation) && canvas == old(canvas) && pending == old(pending)
      ensures drawn == old(drawn) && presented == old(presented)
    {
      ghost var before := jobs;
      var job := PopJob();
      var post := Post(worker, RenderTile(job));
      StackMove(before, outbox, since, post);
      outbox := outbox + [post];
    }

    /**
     * `onKeyPress(key)`: one camera move for each of the ten keys of `KeyTable` and true;
     * false and no change for any other key.
     */
    method OnKeyPress(key: string) returns (handled: bool)
      modifies camera
      ensures handled == (key in KeyTable)
      ensures camera.State() == if handled then Moved(old(camera.State()), KeyTable[key])
                                else old(camera.State())
    {
      if key == "w" {
        camera.MoveForward();
      } else if key == "W" {
        camera.MoveEyeForward();
      } else if key == "a" || key == "ArrowLeft" {
        camera.MoveLeft();
      } else if key == "s" {
        camera.MoveBack();
      } else if key == "S" {
        camera.MoveEyeBack();
      } else if key == "d" || key == "ArrowRight" {
        camera.MoveRight();
      } else if key == "ArrowUp" {
        camera.MoveUp();
      } else if key == "ArrowDown" {
        camera.MoveDown();
      } else {
        return false;
      }
      return true;
    }
  }

  lemma Suffix<T>(a: seq<T>, b: seq<T>)
    ensures (a + b)[|a|..] == b
  {
  }

  /** The first loop of `render`: the serialized scene posted to every worker in turn. */
  method BroadcastScene(data: SceneData, workers: nat) returns (posts: seq<Post>)
    ensures posts == Broadcast(workers, data)
  {
    posts := [];
    for w := 0 to workers
      invariant posts == Broadcast(w, data)
    {
      posts := posts + [Post(w, SetScene(data))];
    }
  }

  /**
   * The nested loops of `render`: the tiles of a generation pushed row by row, stepping by
   * a fifth of the canvas in each direction.
   */
  method PushTiles(c: Canvas, gen: nat) returns (jobs: seq<Tile>)
    ensures jobs == Tiles(c, gen)
  {
    jobs := [];
    var height := c.height as real / GridSize as real;
    assert c.height as real == GridSize as real * height;
    var y := 0.0;
    ghost var row: nat := 0;
    while y < c.height as real
      invariant row <= GridSize && y == Offset(row, height)
      invariant c.height == 0 ==> row == 0
      invariant jobs == if c.width == 0 then [] else Grid(c, gen, GridSize * row)
      decreases GridSize - row
    {
      StepIndex(row, height);
      jobs := PushRow(c, gen, row, y, jobs);
      y := y + height;
      row := row + 1;
    }
    if c.height > 0 {
      StepIndex(row, height);
    }
  }

  /** The inner loop of `render`: the five tiles of one row pushed left to right. */
  method PushRow(c: Canvas, gen: nat, ghost row: nat, y: real, jobs: seq<Tile>) returns (pushed: seq<Tile>)
    requires row < GridSize && y == Offset(row, c.height as real / GridSize as real)
    requires jobs == if c.width == 0 then [] else Grid(c, gen, GridSize * row)
    ensures pushed == if c.width == 0 then [] else Grid(c, gen, GridSize * (row + 1))
  {
    pushed := jobs;
    var width := c.width as real / GridSize as real;
    var height := c.height as real / GridSize as real;
    assert c.width as real == GridSize as real * width;
    var x := 0.0;
    ghost var col: nat := 0;
    while x < c.width as real
      invariant col <= GridSize && x == Offset(col, width)
      invariant c.width == 0 ==> col == 0
      invariant pushed == if c.width == 0 then [] else Grid(c, gen, GridSize * row + col)
      decreases GridSize - col
    {
      StepIndex(col, width);
      GridStep(c, gen, row, col);
      pushed := pushed + [Tile(x, y, width, height, Some(gen))];
      x := x + width;
      col := col + 1;
    }
    if c.width > 0 {
      StepIndex(col, width);
    }
  }

  /** Pushing the tile at (row, col) extends the grid by one, row by row. */
  lemma GridStep(c: Canvas, gen: nat, row: nat, col: nat)
    requires col < GridSize
    ensures Grid(c, gen, GridSize * row + col + 1) == Grid(c, gen, GridSize * row + col) + [TileAt(c, gen, row, col)]
  {
    var n := GridSize * row + col;
    assert n / GridSize == row && n % GridSize == col;
  }

  /**
   * The last loop of `render`: for each worker in turn the stack is popped and the result,
   * a tile or `undefined`, posted to that worker.
   */
  method DispatchJobs(stack: seq<Tile>, workers: nat) returns (rest: seq<Tile>, posts: seq<Post>)
    ensures rest == stack[..|stack| - Min(workers, |stack|)]
    ensures posts == Dispatch(stack, workers)
    ensures rest + Reversed(Sent(posts)) == stack
  {
    rest := stack;
    posts := [];
    for w := 0 to workers
      invariant rest == stack[..|stack| - Min(w, |stack|)]
      invariant posts == Dispatch(stack, w)
    {
      var job: Option<Tile> := None;
      if rest != [] {
        job := Some(rest[|rest| - 1]);
        rest := rest[..|rest| - 1];
      }
      posts := posts + [Post(w, RenderTile(job))];
    }
    DispatchKeepsStack(stack, workers);
  }

  /**
   * After the dispatch loop every tile of the frame is either left on the stack or was
   * posted to exactly one worker: the remaining stack followed by the posted tiles, most
   * recent first, is the frame.
   */
  lemma {:induction false} DispatchKeepsStack(frame: seq<Tile>, n: nat)
    ensures frame[..|frame| - Min(n, |frame|)] + Reversed(Sent(Dispatch(frame, n))) == frame
    decreases n, 1
  {
    if n == 0 {
      assert frame[..|frame|] == frame;
    } else if n - 1 < |frame| {
      KeepsStackStep(frame, n);
    } else {
      DispatchKeepsStack(frame, n - 1);
      EmptyStackStep(frame, n);
    }
  }

  /** Once the stack is empty, a further dispatch posts no tile. */
  lemma EmptyStackStep(frame: seq<Tile>, n: nat)
    requires |frame| < n
    ensures Reversed(Sent(Dispatch(frame, n))) == Reversed(Sent(Dispatch(frame, n - 1)))
    ensures Min(n, |frame|) == Min(n - 1, |frame|)
  {
    DispatchSent(frame, n);
    var prev := Sent(Dispatch(frame, n - 1));
    assert prev + [] == prev;
  }

  lemma {:induction false} KeepsStackStep(frame: seq<Tile>, n: nat)
    requires 0 < n <= |frame|
    ensures frame[..|frame| - n] + Reversed(Sent(Dispatch(frame, n))) == frame
    decreases n, 0
  {
      DispatchKeepsStack(frame, n - 1);
      var prev := Sent(Dispatch(frame, n - 1));
      assert frame[..|frame| - (n - 1)] + Reversed(prev) == frame;
      DispatchSent(frame, n);
      var t := frame[|frame| - n];
      assert Sent(Dispatch(frame, n)) == prev + [t];
      MoveTop(frame[..|frame| - n], t, prev);
      assert frame[..|frame| - (n - 1)] == frame[..|frame| - n] + [t];
  }


  /** The `n`-th dispatch adds the `n`-th tile from the top to the posted tiles, if there is one. */
  lemma DispatchSent(frame: seq<Tile>, n: nat)
    requires n > 0
    ensures Sent(Dispatch(frame, n)) ==
      Sent(Dispatch(frame, n - 1)) + (if n - 1 < |frame| then [frame[|frame| - n]] else [])
  {
    SentAppend(Dispatch(frame, n - 1), Post(n - 1, RenderTile(PopAt(frame, n - 1))));
  }

  lemma MoveTop(rest: seq<Tile>, t: Tile, sent: seq<Tile>)
    ensures rest + Reversed(sent + [t]) == (rest + [t]) + Reversed(sent)
  {
    ReversedAppend(sent, t);
  }


  /** The loop `for (v = 0; v < 5 * step; v += step)` runs exactly five times. */
  lemma StepIndex(n: nat, step: real)
    requires step >= 0.0
    ensures step > 0.0 ==> (Offset(n, step) < GridSize as real * step <==> n < GridSize)
  {
    OffsetIsProduct(n, step);
    if step > 0.0 {
      if n < GridSize {
        assert n as real < GridSize as real;
        MulLt(n as real, GridSize as real, step);
      } else {
        MulLe(GridSize as real, n as real, step);
      }
    }
  }

  /** `onKeyPress` recognises exactly these ten keys. */
  lemma RecognisedKeys()
    ensures KeyTable.Keys == {"w", "W", "a", "ArrowLeft", "s", "S", "d", "ArrowRight", "ArrowUp", "ArrowDown"}
  {
  }
}
