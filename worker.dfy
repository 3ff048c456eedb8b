/**
 * The render worker of worker.js: it keeps the last scene it was sent, and for every tile
 * it is asked to render it casts one ray per pixel, finds the nearest sphere the ray hits,
 * lights the hit point with every light, and writes the colour into an RGBA byte buffer
 * that it posts back with the tile.
 */
module Worker {
  import opened Wrappers
  import opened Numeric
  import opened Geometry
  import opened Serialization
  import opened Coordinator

  /**
   * `new Tile(payload)`: the worker's tile copies `x`, `y`, `width` and `height` and
   * nothing else, so the tile it posts back has no generation and is never stale.
   */
  function NewTile(job: Tile): (t: Tile)
    ensures t.x == job.x && t.y == job.y && t.width == job.width && t.height == job.height
    ensures t.generation == None
    ensures forall g :: !IsStale(t, g)
  {
    Tile(job.x, job.y, job.width, job.height, None)
  }

  // ---------------------------------------------------------------------------------------
  // The nearest hit: `spheres.reduce(..., { t: Infinity, sphere: null })`
  // ---------------------------------------------------------------------------------------

  /** The accumulator of the reduce: the initial `{ t: Infinity, sphere: null }` or a hit. */
  datatype Nearest = NoHit | Hit(t: real, sphere: Sphere)

  /** `t < min.t`, where the miss carries `t: Infinity`. */
  predicate Below(t: real, min: Nearest)
  {
    min.NoHit? || t < min.t
  }

  /**
   * The reduce callback for one sphere with roots `ts`: the first root at or beyond
   * `EPSILON` that is below the accumulator wins; otherwise the accumulator is kept.
   */
  function Closer(s: Sphere, ts: seq<real>, min: Nearest): Nearest
  {
    if ts == [] then min
    else if ts[0] >= Epsilon && Below(ts[0], min) then Hit(ts[0], s)
    else Closer(s, ts[1..], min)
  }

  /** `sphere.intersect(camera.eye, ray)` for the sphere with index `k`. */
  function Roots(spheres: seq<Sphere>, k: nat, eye: Vec3, ray: Vec3, sqrt: real -> real): seq<real>
    requires k < |spheres|
  {
    spheres[k].Intersect(eye, ray, sqrt)
  }

  /** The reduce over the first `n` spheres. */
  function NearestAmong(spheres: seq<Sphere>, n: nat, eye: Vec3, ray: Vec3, sqrt: real -> real): Nearest
    requires n <= |spheres|
  {
    if n == 0 then NoHit
    else Closer(spheres[n - 1], Roots(spheres, n - 1, eye, ray, sqrt),
                NearestAmong(spheres, n - 1, eye, ray, sqrt))
  }

  /** `t` is a root of sphere `k` at or beyond `EPSILON`: a hit in front of the eye. */
  ghost predicate HitsAt(spheres: seq<Sphere>, k: int, t: real, eye: Vec3, ray: Vec3, sqrt: real -> real)
  {
    0 <= k < |spheres| && t >= Epsilon && t in Roots(spheres, k, eye, ray, sqrt)
  }

  /**
   * Among the first `n` spheres, sphere `k` has the hit `t`, no sphere has a nearer one,
   * and every sphere before `k` has only farther ones: ties go to the earlier sphere.
   */
  ghost predicate NearestAt(spheres: seq<Sphere>, n: nat, k: int, t: real, eye: Vec3, ray: Vec3, sqrt: real -> real)
  {
    && k < n
    && HitsAt(spheres, k, t, eye, ray, sqrt)
    && (forall k', t' :: HitsAt(spheres, k', t', eye, ray, sqrt) && k' < n ==> t <= t')
    && (forall k', t' :: HitsAt(spheres, k', t', eye, ray, sqrt) && k' < k ==> t < t')
  }

  /** Every sphere's roots in ascending order, the shape `intersect` returns. */
  predicate RootsAscending(spheres: seq<Sphere>, eye: Vec3, ray: Vec3, sqrt: real -> real)
  {
    forall k :: 0 <= k < |spheres| ==> Ascending(Roots(spheres, k, eye, ray, sqrt))
  }

  /** `Math.sqrt` of a positive number is not negative. */
  ghost predicate SqrtNonnegative(sqrt: real -> real)
  {
    forall x :: 0.0 < x ==> 0.0 <= sqrt(x)
  }

  /** With a non-negative square root every sphere's roots come in ascending order. */
  lemma AscendingRoots(spheres: seq<Sphere>, eye: Vec3, ray: Vec3, sqrt: real -> real)
    requires SqrtNonnegative(sqrt)
    ensures RootsAscending(spheres, eye, ray, sqrt)
  {
    forall k | 0 <= k < |spheres|
      ensures Ascending(Roots(spheres, k, eye, ray, sqrt))
    {
      var d := spheres[k].Discriminant(eye, ray, sqrt);
      if d > 0.0 {
        assert 0.0 <= sqrt(d);
      }
    }
  }

  /**
   * On ascending roots the callback either keeps the accumulator, and then no root of the
   * sphere at or beyond `EPSILON` is below it, or returns the sphere with its least such
   * root, which is below the accumulator.
   */
  lemma {:induction false} CloserPicksLeast(s: Sphere, ts: seq<real>, min: Nearest)
    requires Ascending(ts)
    ensures var r := Closer(s, ts, min);
            || (r == min && forall t :: t in ts && t >= Epsilon ==> !Below(t, min))
            || (&& r.Hit? && r.sphere == s && r.t in ts && r.t >= Epsilon && Below(r.t, min)
                && forall t :: t in ts && t >= Epsilon ==> r.t <= t)
  {
    if ts != [] {
      var rest := ts[1..];
      assert Ascending(rest) by {
        forall i, j | 0 <= i < j < |rest|
          ensures rest[i] <= rest[j]
        {
          assert rest[i] == ts[i + 1] && rest[j] == ts[j + 1];
        }
      }
      CloserPicksLeast(s, rest, min);
      assert forall t :: t in ts ==> t == ts[0] || t in rest;
      assert forall t :: t in rest ==> ts[0] <= t;
    }
  }

  /**
   * `r` is what the reduce over the first `n` spheres should return: a miss exactly when
   * none of them has a hit in front of the eye, and otherwise the nearest hit, carried by
   * a sphere `k` as in `NearestAt`.
   */
  ghost predicate IsNearest(spheres: seq<Sphere>, n: nat, r: Nearest, eye: Vec3, ray: Vec3, sqrt: real -> real)
  {
    && (r.NoHit? <==> forall k, t :: HitsAt(spheres, k, t, eye, ray, sqrt) ==> n <= k)
    && (r.Hit? ==> exists k :: NearestAt(spheres, n, k, r.t, eye, ray, sqrt) && spheres[k] == r.sphere)
  }

  /** Keeping the accumulator is right when sphere `last` has no hit below it. */
  lemma KeepStep(spheres: seq<Sphere>, last: nat, r: Nearest, eye: Vec3, ray: Vec3, sqrt: real -> real)
    requires last < |spheres|
    requires IsNearest(spheres, last, r, eye, ray, sqrt)
    requires forall t :: t in Roots(spheres, last, eye, ray, sqrt) && t >= Epsilon ==> !Below(t, r)
    ensures IsNearest(spheres, last + 1, r, eye, ray, sqrt)
  {
    if r.Hit? {
      var k :| NearestAt(spheres, last, k, r.t, eye, ray, sqrt) && spheres[k] == r.sphere;
      forall k', t' | HitsAt(spheres, k', t', eye, ray, sqrt) && k' < last + 1
        ensures r.t <= t'
      {
        if k' == last {
          assert !Below(t', r);
        }
      }
      assert NearestAt(spheres, last + 1, k, r.t, eye, ray, sqrt);
    } else {
      assert forall t :: !(t in Roots(spheres, last, eye, ray, sqrt) && t >= Epsilon);
    }
  }

  /** Taking the least hit of sphere `last` is right when it is below the accumulator. */
  lemma TakeStep(spheres: seq<Sphere>, last: nat, prev: Nearest, t: real, eye: Vec3, ray: Vec3, sqrt: real -> real)
    requires last < |spheres|
    requires IsNearest(spheres, last, prev, eye, ray, sqrt)
    requires HitsAt(spheres, last, t, eye, ray, sqrt) && Below(t, prev)
    requires forall t' :: HitsAt(spheres, last, t', eye, ray, sqrt) ==> t <= t'
    ensures IsNearest(spheres, last + 1, Hit(t, spheres[last]), eye, ray, sqrt)
  {
    if prev.Hit? {
      var k :| NearestAt(spheres, last, k, prev.t, eye, ray, sqrt) && spheres[k] == prev.sphere;
    }
    assert forall k', t' :: HitsAt(spheres, k', t', eye, ray, sqrt) && k' < last ==> t < t';
    assert NearestAt(spheres, last + 1, last, t, eye, ray, sqrt);
  }

  /** One step of the reduce keeps `IsNearest`. */
  lemma NearestStep(spheres: seq<Sphere>, last: nat, prev: Nearest, eye: Vec3, ray: Vec3, sqrt: real -> real)
    requires last < |spheres|
    requires IsNearest(spheres, last, prev, eye, ray, sqrt)
    requires Ascending(Roots(spheres, last, eye, ray, sqrt))
    ensures IsNearest(spheres, last + 1, Closer(spheres[last], Roots(spheres, last, eye, ray, sqrt), prev), eye, ray, sqrt)
  {
    var ts := Roots(spheres, last, eye, ray, sqrt);
    var r := Closer(spheres[last], ts, prev);
    CloserPicksLeast(spheres[last], ts, prev);
    if r == prev && forall t :: t in ts && t >= Epsilon ==> !Below(t, prev) {
      KeepStep(spheres, last, prev, eye, ray, sqrt);
    } else {
      TakeStep(spheres, last, prev, r.t, eye, ray, sqrt);
    }
  }

  /**
   * The reduce over the first `n` spheres misses exactly when no sphere has a hit in front
   * of the eye, and otherwise returns the nearest hit, ties going to the earlier sphere.
   */
  lemma {:induction false} NearestAmongIsNearest(spheres: seq<Sphere>, n: nat, eye: Vec3, ray: Vec3, sqrt: real -> real)
    requires n <= |spheres|
    requires RootsAscending(spheres, eye, ray, sqrt)
    ensures IsNearest(spheres, n, NearestAmong(spheres, n, eye, ray, sqrt), eye, ray, sqrt)
  {
    if n > 0 {
      NearestAmongIsNearest(spheres, n - 1, eye, ray, sqrt);
      var prev := NearestAmong(spheres, n - 1, eye, ray, sqrt);
      NearestStep(spheres, n - 1, prev, eye, ray, sqrt);
      assert NearestAmong(spheres, n, eye, ray, sqrt)
             == Closer(spheres[n - 1], Roots(spheres, n - 1, eye, ray, sqrt), prev);
    }
  }

  /** One run of the reduce callback: the `for (let t of ts)` loop with its early return. */
  method Scan(s: Sphere, ts: seq<real>, min: Nearest) returns (r: Nearest)
    ensures r == Closer(s, ts, min)
  {
    for i := 0 to |ts|
      invariant Closer(s, ts, min) == Closer(s, ts[i..], min)
    {
      assert ts[i..][1..] == ts[i + 1..];
      if ts[i] >= Epsilon && Below(ts[i], min) {
        return Hit(ts[i], s);
      }
    }
    return min;
  }

  /** `spheres.reduce(...)`: the callback applied to every sphere in order. */
  method FindNearest(spheres: seq<Sphere>, eye: Vec3, ray: Vec3, sqrt: real -> real) returns (nearest: Nearest)
    ensures nearest == NearestAmong(spheres, |spheres|, eye, ray, sqrt)
  {
    nearest := NoHit;
    for k := 0 to |spheres|
      invariant nearest == NearestAmong(spheres, k, eye, ray, sqrt)
    {
      var ts := spheres[k].Intersect(eye, ray, sqrt);
      nearest := Scan(spheres[k], ts, nearest);
    }
  }

  // ---------------------------------------------------------------------------------------
  // Lighting: `lights.reduce((acc, light) => acc + light.illuminate(...), 0)`
  // ---------------------------------------------------------------------------------------

  /** The sum of the first `n` lights' illuminations, added left to right from 0. */
  function TotalPower(lights: seq<Light>, n: nat, point: Vec3, normal: Vec3, spheres: seq<Sphere>, m: MathLib): real
    requires n <= |lights|
  {
    if n == 0 then 0.0
    else TotalPower(lights, n - 1, point, normal, spheres, m) + lights[n - 1].Illumination(point, normal, spheres, m)
  }

  /** The shadow ray from `point` towards light `l` is blocked. */
  predicate InShadowOf(l: Light, point: Vec3, spheres: seq<Sphere>, m: MathLib)
  {
    Shadowed(spheres, point, l.origin.Sub(point).Unit(m.sqrt), m.sqrt)
  }

  /** Lights whose shadow rays are blocked add nothing. */
  lemma {:induction false} ShadowedLightsAddNothing(lights: seq<Light>, n: nat, point: Vec3, normal: Vec3, spheres: seq<Sphere>, m: MathLib)
    requires n <= |lights|
    requires forall k :: 0 <= k < n ==> InShadowOf(lights[k], point, spheres, m)
    ensures TotalPower(lights, n, point, normal, spheres, m) == 0.0
  {
    if n > 0 {
      ShadowedLightsAddNothing(lights, n - 1, point, normal, spheres, m);
    }
  }

  /** The reduce over the lights, each term computed by `illuminate`. */
  method SumPower(lights: seq<Light>, point: Vec3, normal: Vec3, spheres: seq<Sphere>, m: MathLib) returns (power: real)
    ensures power == TotalPower(lights, |lights|, point, normal, spheres, m)
  {
    power := 0.0;
    for k := 0 to |lights|
      invariant power == TotalPower(lights, k, point, normal, spheres, m)
    {
      var p := lights[k].Illuminate(point, normal, spheres, m);
      power := power + p;
    }
  }

  // ---------------------------------------------------------------------------------------
  // One pixel
  // ---------------------------------------------------------------------------------------

  /** The ray `camera.cast(x / canvas.width, y / canvas.height)` through the canvas point. */
  function PixelRay(scene: Snapshot, x: real, y: real, m: MathLib): Vec3
  {
    scene.camera.Cast(Quotient(x, scene.canvas.width as real), Quotient(y, scene.canvas.height as real), m.sqrt)
  }

  /** The point the ray reaches at parameter `t`, and the colour of sphere `s` lit there. */
  function ShadeHit(scene: Snapshot, ray: Vec3, t: real, s: Sphere, m: MathLib): RGB
  {
    var intersection := scene.camera.eye.Add(ray.Scale(t));
    var normal := intersection.Sub(s.center);
    s.color.Shade(TotalPower(scene.lights, |scene.lights|, intersection, normal, scene.spheres, m))
  }

  /** The colour `render` computes for the canvas point (x, y). */
  function PixelColor(scene: Snapshot, x: real, y: real, m: MathLib): RGB
  {
    var ray := PixelRay(scene, x, y, m);
    match NearestAmong(scene.spheres, |scene.spheres|, scene.camera.eye, ray, m.sqrt)
    case NoHit => Background
    case Hit(t, s) => ShadeHit(scene, ray, t, s, m)
  }

  /**
   * A pixel whose ray hits no sphere in front of the eye has the background colour; any
   * other pixel has the colour of the nearest sphere hit (ties to the earlier sphere),
   * shaded by the total light at the hit point.
   */
  lemma PixelColorIsNearestShade(scene: Snapshot, x: real, y: real, m: MathLib)
    requires SqrtNonnegative(m.sqrt)
    ensures var ray := PixelRay(scene, x, y, m);
            var eye := scene.camera.eye;
            && ((forall k, t :: !HitsAt(scene.spheres, k, t, eye, ray, m.sqrt)) ==>
                  PixelColor(scene, x, y, m) == Background)
            && ((exists k, t :: HitsAt(scene.spheres, k, t, eye, ray, m.sqrt)) ==>
                  exists k, t :: && NearestAt(scene.spheres, |scene.spheres|, k, t, eye, ray, m.sqrt)
                                 && PixelColor(scene, x, y, m) == ShadeHit(scene, ray, t, scene.spheres[k], m))
  {
    var ray := PixelRay(scene, x, y, m);
    var eye := scene.camera.eye;
    AscendingRoots(scene.spheres, eye, ray, m.sqrt);
    NearestAmongIsNearest(scene.spheres, |scene.spheres|, eye, ray, m.sqrt);
  }

  /** A hit point that every light's shadow ray finds blocked is black. */
  lemma UnlitHitIsBlack(scene: Snapshot, ray: Vec3, t: real, s: Sphere, m: MathLib)
    requires forall k :: 0 <= k < |scene.lights| ==>
               InShadowOf(scene.lights[k], scene.camera.eye.Add(ray.Scale(t)), scene.spheres, m)
    ensures ShadeHit(scene, ray, t, s, m) == Black()
  {
    var intersection := scene.camera.eye.Add(ray.Scale(t));
    ShadowedLightsAddNothing(scene.lights, |scene.lights|, intersection, intersection.Sub(s.center), scene.spheres, m);
  }

  /** The body of the pixel loop up to the buffer writes. */
  method ShadePixel(scene: Snapshot, x: real, y: real, m: MathLib) returns (color: RGB)
    ensures color == PixelColor(scene, x, y, m)
  {
    var camera := scene.camera;
    var ray := camera.Cast(Quotient(x, scene.canvas.width as real), Quotient(y, scene.canvas.height as real), m.sqrt);
    var nearest := FindNearest(scene.spheres, camera.eye, ray, m.sqrt);
    if nearest.Hit? {
      var intersection := camera.eye.Add(ray.Scale(nearest.t));
      var normal := intersection.Sub(nearest.sphere.center);
      var power := SumPower(scene.lights, intersection, normal, scene.spheres, m);
      color := nearest.sphere.color.Shade(power);
    } else {
      color := Background;
    }
  }

  // ---------------------------------------------------------------------------------------
  // The tile buffer
  // ---------------------------------------------------------------------------------------

  /** The byte channel `c` of a colour becomes in a `Uint8ClampedArray`: red, green, blue, alpha. */
  function Channel(color: RGB, c: nat): (b: Byte)
    requires c < 4
    ensures c == 3 ==> b == 255
    ensures color == Background && c < 3 ==> b == 180
  {
    if c == 0 then ToUint8Clamped(color.red)
    else if c == 1 then ToUint8Clamped(color.green)
    else if c == 2 then ToUint8Clamped(color.blue)
    else ToUint8Clamped(color.alpha)
  }

  /** The tile's width and height are whole, non-negative numbers of pixels. */
  predicate Whole(t: Tile)
  {
    && 0.0 <= t.width && t.width.Floor as real == t.width
    && 0.0 <= t.height && t.height.Floor as real == t.height
  }

  function Cols(t: Tile): nat
    requires Whole(t)
  {
    t.width.Floor
  }

  function Rows(t: Tile): nat
    requires Whole(t)
  {
    t.height.Floor
  }

  /**
   * Byte `k` of the buffer: channel `k % 4` of pixel `k / 4`, which lies in row
   * `(k / 4) / width` and column `(k / 4) % width` of the tile.
   */
  function ByteAt(tile: Tile, scene: Snapshot, m: MathLib, k: nat): Byte
    requires Whole(tile) && k < 4 * Cols(tile) * Rows(tile)
  {
    var w := Cols(tile);
    var p := k / 4;
    Channel(PixelColor(scene, tile.x + (p % w) as real, tile.y + (p / w) as real, m), k % 4)
  }

  /** The buffer `render` returns. */
  function TileBytes(tile: Tile, scene: Snapshot, m: MathLib): (bytes: seq<Byte>)
    requires Whole(tile)
    ensures |bytes| == 4 * Cols(tile) * Rows(tile)
  {
    var n := 4 * Cols(tile) * Rows(tile);
    seq(n, k requires 0 <= k < n => ByteAt(tile, scene, m, k))
  }

  /** Multiplying by a non-negative number keeps order. */
  lemma MulMonotone(a: int, b: int, d: int)
    requires a <= b && 0 <= d
    ensures a * d <= b * d
  {
    assert b * d - a * d == (b - a) * d;
  }

  /** A quotient and remainder are determined by the number they decompose. */
  lemma DecompositionUnique(q: int, r: int, q': int, r': int, d: int)
    requires 0 <= r < d && 0 <= r' < d
    requires q * d + r == q' * d + r'
    ensures q == q' && r == r'
  {
    if q < q' {
      MulMonotone(q + 1, q', d);
    } else if q' < q {
      MulMonotone(q' + 1, q, d);
    }
  }

  /** Integer division and remainder are the quotient and remainder of a decomposition. */
  lemma DivModOf(q: int, d: int, r: int)
    requires 0 < d && 0 <= r < d
    ensures (q * d + r) / d == q && (q * d + r) % d == r
  {
    var a := q * d + r;
    assert a == (a / d) * d + a % d;
    DecompositionUnique(q, r, a / d, a % d, d);
  }

  /** Pixel (i, j) of a `w`-wide tile owns bytes `4 * (j + i * w)` to `4 * (j + i * w) + 3`. */
  lemma PixelIndex(w: nat, h: nat, i: nat, j: nat, c: nat)
    requires i < h && j < w && c < 4
    ensures 4 * (j + i * w) + c < 4 * w * h
    ensures (4 * (j + i * w) + c) / 4 == j + i * w && (4 * (j + i * w) + c) % 4 == c
    ensures (j + i * w) % w == j && (j + i * w) / w == i
  {
    DivModOf(j + i * w, 4, c);
    DivModOf(i, w, j);
    assert j + i * w + 1 <= (i + 1) * w <= h * w;
  }

  /** Distinct (row, column, channel) triples land on distinct bytes. */
  lemma PixelIndexOneToOne(w: nat, i: nat, j: nat, c: nat, i': nat, j': nat, c': nat)
    requires j < w && j' < w && c < 4 && c' < 4
    requires 4 * (j + i * w) + c == 4 * (j' + i' * w) + c'
    ensures i == i' && j == j' && c == c'
  {
    PixelIndex(w, i + i' + 1, i, j, c);
    PixelIndex(w, i + i' + 1, i', j', c');
  }

  /** Every byte of the buffer belongs to a pixel of the tile. */
  lemma PixelIndexOnto(w: nat, h: nat, k: nat)
    requires k < 4 * w * h
    ensures 0 < w && k / 4 / w < h
    ensures k == 4 * (k / 4 % w + k / 4 / w * w) + k % 4
  {
    var p := k / 4;
    assert p < w * h;
    assert 0 < w;
    assert p == (p / w) * w + p % w;
    if h <= p / w {
      MulMonotone(h, p / w, w);
    }
  }

  /** Bytes `4 * (j + i * width) + c` of the buffer hold channel `c` of pixel (i, j). */
  lemma ByteAtPixel(tile: Tile, scene: Snapshot, m: MathLib, i: nat, j: nat, k: nat, c: nat)
    requires Whole(tile) && i < Rows(tile) && j < Cols(tile) && c < 4
    requires k == 4 * (j + i * Cols(tile))
    ensures k + c < 4 * Cols(tile) * Rows(tile)
    ensures ByteAt(tile, scene, m, k + c)
            == Channel(PixelColor(scene, tile.x + j as real, tile.y + i as real, m), c)
  {
    var w := Cols(tile);
    PixelIndex(w, Rows(tile), i, j, c);
    var p := (k + c) / 4;
    assert p == j + i * w && (k + c) % 4 == c;
    assert p % w == j && p / w == i;
  }

  /**
   * The buffer layout: `4 * width * height` bytes, pixel (i, j) at `4 * (j + i * width)`
   * holding red, green, blue and an opaque alpha of the colour at canvas point
   * (tile.x + j, tile.y + i).
   */
  lemma PixelLayout(tile: Tile, scene: Snapshot, m: MathLib, i: nat, j: nat, c: nat)
    requires Whole(tile) && i < Rows(tile) && j < Cols(tile) && c < 4
    ensures 4 * (j + i * Cols(tile)) + c < |TileBytes(tile, scene, m)|
    ensures TileBytes(tile, scene, m)[4 * (j + i * Cols(tile)) + c]
            == Channel(PixelColor(scene, tile.x + j as real, tile.y + i as real, m), c)
    ensures c == 3 ==> TileBytes(tile, scene, m)[4 * (j + i * Cols(tile)) + c] == 255
  {
    ByteAtPixel(tile, scene, m, i, j, 4 * (j + i * Cols(tile)), c);
  }

  /** The first `n` bytes of the buffer are those of the rendered tile. */
  ghost predicate Written(bytes: seq<Byte>, tile: Tile, scene: Snapshot, m: MathLib, n: nat)
    requires Whole(tile)
  {
    && |bytes| == 4 * Cols(tile) * Rows(tile)
    && n <= |bytes|
    && forall k :: 0 <= k < n ==> bytes[k] == ByteAt(tile, scene, m, k)
  }

  /** A buffer whose every byte is written is the rendered tile. */
  lemma WrittenAll(bytes: seq<Byte>, tile: Tile, scene: Snapshot, m: MathLib)
    requires Whole(tile) && Written(bytes, tile, scene, m, 4 * Cols(tile) * Rows(tile))
    ensures bytes == TileBytes(tile, scene, m)
  {
  }

  /** Storing pixel (i, j) at byte `k` right after the pixels before it extends the prefix. */
  lemma WrittenExtend(before: seq<Byte>, after: seq<Byte>, tile: Tile, scene: Snapshot, m: MathLib,
                      i: nat, j: nat, k: nat, color: RGB)
    requires Whole(tile) && i < Rows(tile) && j < Cols(tile) && k == 4 * (j + i * Cols(tile))
    requires color == PixelColor(scene, tile.x + j as real, tile.y + i as real, m)
    requires Written(before, tile, scene, m, k)
    requires k + 4 <= |after| == |before| && after[..k] == before[..k]
    requires after[k] == Channel(color, 0) && after[k + 1] == Channel(color, 1)
    requires after[k + 2] == Channel(color, 2) && after[k + 3] == Channel(color, 3)
    ensures Written(after, tile, scene, m, k + 4)
  {
    ByteAtPixel(tile, scene, m, i, j, k, 0);
    ByteAtPixel(tile, scene, m, i, j, k, 1);
    ByteAtPixel(tile, scene, m, i, j, k, 2);
    ByteAtPixel(tile, scene, m, i, j, k, 3);
    WrittenPrefix(before, after, tile, scene, m, k);
    WrittenFour(after, tile, scene, m, k);
  }

  /** Bytes left as they were keep a written prefix written. */
  lemma WrittenPrefix(before: seq<Byte>, after: seq<Byte>, tile: Tile, scene: Snapshot, m: MathLib, k: nat)
    requires Whole(tile) && Written(before, tile, scene, m, k)
    requires |after| == |before| && after[..k] == before[..k]
    ensures Written(after, tile, scene, m, k)
  {
    forall q | 0 <= q < k
      ensures after[q] == ByteAt(tile, scene, m, q)
    {
      assert after[q] == after[..k][q];
    }
  }

  /** Four more correct bytes extend a written prefix by one pixel. */
  lemma WrittenFour(bytes: seq<Byte>, tile: Tile, scene: Snapshot, m: MathLib, k: nat)
    requires Whole(tile) && Written(bytes, tile, scene, m, k) && k + 4 <= |bytes|
    requires bytes[k] == ByteAt(tile, scene, m, k) && bytes[k + 1] == ByteAt(tile, scene, m, k + 1)
    requires bytes[k + 2] == ByteAt(tile, scene, m, k + 2) && bytes[k + 3] == ByteAt(tile, scene, m, k + 3)
    ensures Written(bytes, tile, scene, m, k + 4)
  {
    forall q | k <= q < k + 4
      ensures bytes[q] == ByteAt(tile, scene, m, q)
    {
      assert q == k || q == k + 1 || q == k + 2 || q == k + 3;
    }
  }

  /** The four stores `buf[k++] = color.red` ... `buf[k] = color.alpha`. */
  method WritePixel(buf: array<Byte>, k: nat, color: RGB)
    requires k + 4 <= buf.Length
    modifies buf
    ensures buf[..k] == old(buf[..k]) && buf[k + 4..] == old(buf[k + 4..])
    ensures buf[k] == Channel(color, 0) && buf[k + 1] == Channel(color, 1)
    ensures buf[k + 2] == Channel(color, 2) && buf[k + 3] == Channel(color, 3)
  {
    buf[k] := ToUint8Clamped(color.red);
    buf[k + 1] := ToUint8Clamped(color.green);
    buf[k + 2] := ToUint8Clamped(color.blue);
    buf[k + 3] := ToUint8Clamped(color.alpha);
  }

  /** One pass of the inner loop: column `j` of row `i`. */
  method RenderPixel(buf: array<Byte>, tile: Tile, scene: Snapshot, m: MathLib, i: nat, j: nat)
    requires Whole(tile) && i < Rows(tile) && j < Cols(tile)
    requires Written(buf[..], tile, scene, m, 4 * (j + i * Cols(tile)))
    modifies buf
    ensures Written(buf[..], tile, scene, m, 4 * (j + i * Cols(tile)) + 4)
    ensures buf[4 * (j + i * Cols(tile)) + 4..] == old(buf[4 * (j + i * Cols(tile)) + 4..])
  {
    var color := ShadePixel(scene, tile.x + j as real, tile.y + i as real, m);
    var k := (j + i * Cols(tile)) * 4;
    PixelIndex(Cols(tile), Rows(tile), i, j, 3);
    ghost var before := buf[..];
    WritePixel(buf, k, color);
    assert buf[..][..k] == buf[..k];
    WrittenExtend(before, buf[..], tile, scene, m, i, j, k, color);
  }

  /** One pass of the outer loop: row `i`, every column left to right. */
  method RenderRow(buf: array<Byte>, tile: Tile, scene: Snapshot, m: MathLib, i: nat)
    requires Whole(tile) && i < Rows(tile)
    requires Written(buf[..], tile, scene, m, 4 * (i * Cols(tile)))
    modifies buf
    ensures Written(buf[..], tile, scene, m, 4 * ((i + 1) * Cols(tile)))
    ensures buf[4 * ((i + 1) * Cols(tile))..] == old(buf[4 * ((i + 1) * Cols(tile))..])
  {
    var w := Cols(tile);
    assert w + i * w == (i + 1) * w;
    var j := 0;
    while j < w
      invariant j <= w
      invariant Written(buf[..], tile, scene, m, 4 * (j + i * w))
      invariant buf[4 * (w + i * w)..] == old(buf[4 * (w + i * w)..])
    {
      RenderPixel(buf, tile, scene, m, i, j);
      j := j + 1;
    }
  }

  /**
   * `tile.render(scene)`: a fresh zeroed buffer of `4 * width * height` bytes, filled row
   * by row and column by column.
   */
  method Render(tile: Tile, scene: Snapshot, m: MathLib) returns (buf: array<Byte>)
    requires Whole(tile)
    ensures buf.Length == 4 * Cols(tile) * Rows(tile)
    ensures buf[..] == TileBytes(tile, scene, m)
  {
    var w, h := Cols(tile), Rows(tile);
    buf := new Byte[4 * w * h];
    var i := 0;
    while i < h
      invariant i <= h
      invariant Written(buf[..], tile, scene, m, 4 * (i * w))
    {
      RenderRow(buf, tile, scene, m, i);
      i := i + 1;
    }
    assert 4 * (h * w) == 4 * w * h;
    WrittenAll(buf[..], tile, scene, m);
  }

  /** When the canvas sides are multiples of 5, every tile of a frame is whole. */
  lemma FrameTilesAreWhole(c: Canvas, gen: nat)
    requires c.width % GridSize == 0 && c.height % GridSize == 0
    ensures forall k :: 0 <= k < |Tiles(c, gen)| ==> Whole(NewTile(Tiles(c, gen)[k]))
  {
    TilesShape(c, gen);
  }

  // ---------------------------------------------------------------------------------------
  // The worker's global scope
  // ---------------------------------------------------------------------------------------

  /** One `self.postMessage({ tile, pixels })`. */
  datatype Reply = Reply(tile: Tile, pixels: seq<Byte>)

  /** The worker: its `scene` variable and the replies it has posted. */
  class Scope {
    /** `let scene`: `None` until the first scene message arrives. */
    var scene: Option<Snapshot>
    /** Every reply posted, in order. */
    var replies: seq<Reply>

    /** Every posted tile was made by `new Tile`, so none carries a generation. */
    ghost predicate Valid()
      reads this
    {
      forall r :: r in replies ==> r.tile.generation == None
    }

    constructor ()
      ensures Valid()
      ensures scene == None && replies == []
    {
      scene := None;
      replies := [];
    }

    /**
     * `onmessage`. A scene message replaces the scene. A tile message, once a scene has
     * arrived, posts the tile without its generation and its rendered pixels; without a
     * scene or a payload the handler throws before posting and nothing changes. Any other
     * message type is ignored.
     */
    method OnMessage(msg: Message, m: MathLib)
      requires msg.SetScene? ==> WellFormed(msg.data)
      requires msg.RenderTile? && msg.job.Some? && scene.Some? ==> Whole(msg.job.value)
      requires Valid()
      modifies this
      ensures Valid()
      ensures msg.SetScene? ==> scene == Some(DeserializeScene(msg.data)) && replies == old(replies)
      ensures msg.RenderTile? ==> scene == old(scene)
      ensures msg.RenderTile? && msg.job.Some? && old(scene).Some? ==>
                var tile := NewTile(msg.job.value);
                replies == old(replies) + [Reply(tile, TileBytes(tile, old(scene).value, m))]
      ensures msg.RenderTile? && (msg.job.None? || old(scene).None?) ==> replies == old(replies)
      ensures msg.Other? ==> scene == old(scene) && replies == old(replies)
    {
      match msg
      case SetScene(data) =>
        scene := Some(DeserializeScene(data));
      case RenderTile(job) =>
        if job.Some? && scene.Some? {
          var tile := NewTile(job.value);
          var pixels := Render(tile, scene.value, m);
          replies := replies + [Reply(tile, pixels[..])];
        }
      case Other(_) =>
    }
  }

  /** Every reply a worker posts is accepted by the coordinator of any generation. */
  lemma RepliesAreNeverStale(w: Scope, g: nat)
    requires w.Valid()
    ensures forall r :: r in w.replies ==> !IsStale(r.tile, g)
  {
  }

  /**
   * Results without a generation present a frame early. A pool of 30 workers renders a
   * 5 x 5 canvas twice, and then `late` results come back, the first 25 being the tiles the
   * first render handed out, each from the worker it went to. Since `NewTile` drops the
   * generation, such a tile equals the second render's tile for the same cell, so nothing
   * tells the coordinator which render a result belongs to: every one is drawn and counted
   * against the second frame. The frame is presented after 25 such results, whichever render
   * they belong to, and after that `pending` falls below 0 and the frame is not presented
   * again. Results beyond 25 stand for the second render's own tiles, which are the same
   * values.
   */
  method LateResultsPresentEarly(camera: Camera, late: nat) returns (s: Scene)
    ensures s.Valid() && s.generation == 2 && s.jobs == []
    ensures forall t <- s.frame :: t.generation == Some(2)
    ensures |s.drawn| == late && forall d <- s.drawn :: d.tile.generation == None
    ensures s.pending == 25 - late && s.Outstanding() == 25 - late
    ensures s.presented == if late < 25 then 0 else 1
  {
    s := RenderTwice(camera);
    var first := Tiles(Canvas(5, 5), 1);
    TilesShape(Canvas(5, 5), 1);
    for i := 0 to late
      invariant s.Valid() && s.generation == 2 && s.canvas == Canvas(5, 5) && s.jobs == []
      invariant |s.drawn| == i && forall d <- s.drawn :: d.tile.generation == None
      invariant s.pending == 25 - i
      invariant s.presented == if i < 25 then 0 else 1
    {
      s.OnWorkerMessage(i % 30, NewTile(first[24 - i % 25]), []);
    }
    s.PendingIsStackPlusOutstanding();
    TilesShape(Canvas(5, 5), 2);
  }

  /** The set-up of `LateResultsPresentEarly`: two renders of a 5 x 5 canvas by 30 workers. */
  method RenderTwice(camera: Camera) returns (s: Scene)
    ensures fresh(s)
    ensures s.Valid() && s.generation == 2 && s.canvas == Canvas(5, 5) && s.jobs == []
    ensures s.pending == 25
    ensures s.drawn == [] && s.presented == 0
  {
    var c := Canvas(5, 5);
    s := new Scene(camera, [], [], 30);
    s.Render(c);
    s.Render(c);
    TilesShape(c, 2);
  }
}
