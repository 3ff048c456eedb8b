/**
 * The value layer of scene.js: vectors, colours, spheres and their ray intersection,
 * the film and the camera with its discrete moves, and point lights with hard shadows.
 */
module Geometry {
  import opened Numeric

  /** Self-intersection cut-off for rays (`EPSILON`). */
  const Epsilon: real := 0.0000000001

  /** `Vec`: a 3-component vector. */
  datatype Vec3 = Vec3(x: real, y: real, z: real) {
    function Add(o: Vec3): Vec3 { Vec3(x + o.x, y + o.y, z + o.z) }
    function Sub(o: Vec3): Vec3 { Vec3(x - o.x, y - o.y, z - o.z) }
    function Scale(n: real): Vec3 { Vec3(x * n, y * n, z * n) }
    function Dot(o: Vec3): real { x * o.x + y * o.y + z * o.z }

    /** The radicand of `length`. */
    function NormSquared(): real { Sqr(x) + Sqr(y) + Sqr(z) }

    /** `length`, with `Math.sqrt` abstract. */
    function Length(sqrt: real -> real): real { sqrt(NormSquared()) }

    /** `unit()`: every coordinate divided by the length. */
    function Unit(sqrt: real -> real): Vec3
    {
      var len := Length(sqrt);
      Vec3(Quotient(x, len), Quotient(y, len), Quotient(z, len))
    }
  }

  const Zero := Vec3(0.0, 0.0, 0.0)

  /** `RGB`: three channels; alpha is always 255. */
  datatype RGB = RGB(red: real, green: real, blue: real) {
    const alpha: real := 255.0

    /** `shade(factor)`: every channel scaled by `clamp(factor, 0, 1)`. */
    function Shade(factor: real): (r: RGB)
      ensures 0.0 <= red ==> 0.0 <= r.red <= red
      ensures 0.0 <= green ==> 0.0 <= r.green <= green
      ensures 0.0 <= blue ==> 0.0 <= r.blue <= blue
      ensures 0.0 <= factor <= 1.0 ==> r == RGB(red * factor, green * factor, blue * factor)
      ensures 1.0 <= factor ==> r == this
      ensures factor <= 0.0 ==> r == Black()
    {
      var f := Clamp(factor, 0.0, 1.0);
      ShadeChannel(red, factor);
      ShadeChannel(green, factor);
      ShadeChannel(blue, factor);
      RGB(red * f, green * f, blue * f)
    }
  }

  /** One channel of `shade`. */
  lemma ShadeChannel(c: real, factor: real)
    ensures var f := Clamp(factor, 0.0, 1.0);
            && (0.0 <= c ==> 0.0 <= c * f <= c)
            && (0.0 <= factor <= 1.0 ==> c * f == c * factor)
            && (1.0 <= factor ==> c * f == c)
            && (factor <= 0.0 ==> c * f == 0.0)
  {
    var f := Clamp(factor, 0.0, 1.0);
    if 0.0 <= c {
      assert c * f <= c * 1.0;
    }
  }

  /** The static getters `RGB.black`, `RGB.red`, `RGB.green` and `RGB.blue`. */
  function Black(): RGB { RGB(0.0, 0.0, 0.0) }
  function Red(): RGB { RGB(255.0, 0.0, 0.0) }
  function Green(): RGB { RGB(0.0, 255.0, 0.0) }
  function Blue(): RGB { RGB(0.0, 0.0, 255.0) }

  /** The colour of a pixel whose ray hits nothing. */
  const Background := RGB(180.0, 180.0, 180.0)

  datatype Sphere = Sphere(center: Vec3, radius: real, color: RGB) {

    /** `dot` of `intersect`: the line direction against the origin's offset from the centre. */
    function Half(origin: Vec3, line: Vec3): real
    {
      line.Dot(origin.Sub(center))
    }

    /** `sqrtTerm` of `intersect`, the discriminant of the quadratic in the ray parameter. */
    function Discriminant(origin: Vec3, line: Vec3, sqrt: real -> real): real
    {
      var oc := origin.Sub(center);
      Sqr(Half(origin, line)) - (Sqr(oc.Length(sqrt)) - Sqr(radius))
    }

    /**
     * `intersect(origin, line)`: the ray parameters at which the line meets the sphere:
     * none, the tangent point, or the entry and exit points in ascending order.
     */
    function Intersect(origin: Vec3, line: Vec3, sqrt: real -> real): (ts: seq<real>)
      ensures Discriminant(origin, line, sqrt) < 0.0 <==> ts == []
      ensures Discriminant(origin, line, sqrt) == 0.0 <==> ts == [-Half(origin, line)]
      ensures Discriminant(origin, line, sqrt) > 0.0 <==> |ts| == 2
      ensures |ts| == 2 ==> ts[0] + ts[1] == -2.0 * Half(origin, line)
      ensures |ts| == 2 && 0.0 <= sqrt(Discriminant(origin, line, sqrt)) ==> ts[0] <= ts[1]
      ensures |ts| == 2 && SqrtAt(sqrt, Discriminant(origin, line, sqrt)) ==> ts[0] < ts[1]
    {
      var dot := Half(origin, line);
      var term := Discriminant(origin, line, sqrt);
      if term < 0.0 then []
      else if term == 0.0 then [-dot]
      else
        var s := sqrt(term);
        assert SqrtAt(sqrt, term) ==> s != 0.0;
        [-dot - s, -dot + s]
    }
  }

  /** Roots in ascending order, the shape `intersect` promises. */
  predicate Ascending(ts: seq<real>)
  {
    forall i, j :: 0 <= i < j < |ts| ==> ts[i] <= ts[j]
  }

  /** With a non-negative square root, `intersect` returns its roots in ascending order. */
  lemma IntersectAscending(s: Sphere, origin: Vec3, line: Vec3, sqrt: real -> real)
    requires 0.0 <= sqrt(s.Discriminant(origin, line, sqrt))
    ensures Ascending(s.Intersect(origin, line, sqrt))
  {
  }

  /**
   * For a unit direction and a genuine square root, every root returned by `intersect` is
   * a ray parameter whose point lies on the sphere.
   */
  lemma RootsLieOnSphere(s: Sphere, origin: Vec3, line: Vec3, sqrt: real -> real, k: nat)
    requires line.Dot(line) == 1.0
    requires SqrtAt(sqrt, origin.Sub(s.center).NormSquared())
    requires SqrtAt(sqrt, s.Discriminant(origin, line, sqrt))
    requires k < |s.Intersect(origin, line, sqrt)|
    ensures var p := origin.Add(line.Scale(s.Intersect(origin, line, sqrt)[k]));
            p.Sub(s.center).NormSquared() == Sqr(s.radius)
  {
    var ts := s.Intersect(origin, line, sqrt);
    var t := ts[k];
    var oc := origin.Sub(s.center);
    var b := s.Half(origin, line);
    var q := oc.NormSquared() - Sqr(s.radius);
    var d := s.Discriminant(origin, line, sqrt);
    assert d == b * b - q by {
      assert Sqr(oc.Length(sqrt)) == oc.NormSquared();
    }
    if d == 0.0 {
      assert t == -b;
      RootSolvesQuadratic(b, q, t, 0.0);
    } else {
      var r := sqrt(d);
      assert ts == [-b - r, -b + r];
      RootSolvesQuadratic(b, q, t, r);
    }
    assert origin.Add(line.Scale(t)).Sub(s.center) == oc.Add(line.Scale(t));
    PointOnSphere(oc, line, t, b, s.radius);
  }

  /** A ray parameter solving the sphere's quadratic gives a point at distance `radius`. */
  lemma PointOnSphere(oc: Vec3, line: Vec3, t: real, b: real, radius: real)
    requires line.Dot(line) == 1.0 && b == line.Dot(oc)
    requires t * t + 2.0 * b * t + (oc.NormSquared() - Sqr(radius)) == 0.0
    ensures oc.Add(line.Scale(t)).NormSquared() == Sqr(radius)
  {
    NormAlongLine(oc, line, t);
  }

  /** `t = -b ± r` with `r * r == b * b - q` solves `t * t + 2 * b * t + q == 0`. */
  lemma RootSolvesQuadratic(b: real, q: real, t: real, r: real)
    requires r * r == b * b - q
    requires t == -b - r || t == -b + r || (r == 0.0 && t == -b)
    ensures t * t + 2.0 * b * t + q == 0.0
  {
    assert (t + b) * (t + b) == r * r;
  }

  /** The squared norm of `a + t * l` as a polynomial in `t`. */
  lemma NormAlongLine(a: Vec3, l: Vec3, t: real)
    ensures a.Add(l.Scale(t)).NormSquared()
            == a.NormSquared() + 2.0 * t * l.Dot(a) + t * t * l.Dot(l)
  {
    SquareOfSum(a.x, l.x, t);
    SquareOfSum(a.y, l.y, t);
    SquareOfSum(a.z, l.z, t);
  }

  lemma SquareOfSum(a: real, l: real, t: real)
    ensures Sqr(a + l * t) == Sqr(a) + 2.0 * t * (l * a) + t * t * (l * l)
  {
  }

  /** `Film`: the projection plane. */
  datatype Film = Film(origin: Vec3, width: real, height: real) {
    /** `project(offsetX, offsetY)`: the film point at a normalised offset, y flipped. */
    function Project(u: real, v: real): Vec3
    {
      Vec3(origin.x + width * u, origin.y + height - height * v, origin.z)
    }
  }

  /** The value of a `Camera`: its eye and its film. */
  datatype CameraState = CameraState(eye: Vec3, film: Film) {
    /** `cast(x, y)`: the unit direction from the eye to the projected film point. */
    function Cast(u: real, v: real, sqrt: real -> real): Vec3
    {
      film.Project(u, v).Sub(eye).Unit(sqrt)
    }
  }

  /** The eight `move*` methods of `Camera`. */
  datatype Move = Left | Right | Up | Down | Forward | Back | EyeForward | EyeBack

  /** The unit step a move applies to the eye. */
  function Delta(m: Move): Vec3
  {
    match m
    case Left => Vec3(-1.0, 0.0, 0.0)
    case Right => Vec3(1.0, 0.0, 0.0)
    case Up => Vec3(0.0, 1.0, 0.0)
    case Down => Vec3(0.0, -1.0, 0.0)
    case Forward | EyeForward => Vec3(0.0, 0.0, 1.0)
    case Back | EyeBack => Vec3(0.0, 0.0, -1.0)
  }

  /** Whether a move carries the film along with the eye. */
  predicate MovesFilm(m: Move)
  {
    m != EyeForward && m != EyeBack
  }

  /** The state a move leads to: the eye steps by `Delta`, the film too unless eye-only. */
  function Moved(c: CameraState, m: Move): CameraState
  {
    CameraState(c.eye.Add(Delta(m)),
                c.film.(origin := c.film.origin.Add(if MovesFilm(m) then Delta(m) else Zero)))
  }

  function Opposite(m: Move): Move
  {
    match m
    case Left => Right
    case Right => Left
    case Up => Down
    case Down => Up
    case Forward => Back
    case Back => Forward
    case EyeForward => EyeBack
    case EyeBack => EyeForward
  }

  /** A step of length one along exactly one axis. */
  predicate AxisStep(d: Vec3)
  {
    || (d.x in {-1.0, 1.0} && d.y == 0.0 && d.z == 0.0)
    || (d.x == 0.0 && d.y in {-1.0, 1.0} && d.z == 0.0)
    || (d.x == 0.0 && d.y == 0.0 && d.z in {-1.0, 1.0})
  }

  /** A move that carries the film shifts eye and film origin by the same axis step. */
  lemma PlaneMoveShiftsOneAxis(c: CameraState, m: Move)
    requires MovesFilm(m)
    ensures AxisStep(Moved(c, m).eye.Sub(c.eye))
    ensures Moved(c, m).film.origin.Sub(c.film.origin) == Moved(c, m).eye.Sub(c.eye)
    ensures Moved(c, m).eye.Sub(Moved(c, m).film.origin) == c.eye.Sub(c.film.origin)
  {
  }

  /** `moveEyeForward` and `moveEyeBack` change `eye.z` by one and nothing else. */
  lemma EyeMoveChangesOnlyEyeZ(c: CameraState, m: Move)
    requires !MovesFilm(m)
    ensures Moved(c, m).film == c.film
    ensures Moved(c, m).eye.x == c.eye.x && Moved(c, m).eye.y == c.eye.y
    ensures Moved(c, m).eye.z == c.eye.z + (if m == EyeForward then 1.0 else -1.0)
  {
  }

  /** No move changes the size of the film. */
  lemma MoveKeepsFilmSize(c: CameraState, m: Move)
    ensures Moved(c, m).film.width == c.film.width
    ensures Moved(c, m).film.height == c.film.height
  {
  }

  /** Opposite moves cancel. */
  lemma OppositeMovesCancel(c: CameraState, m: Move)
    ensures Moved(Moved(c, m), Opposite(m)) == c
  {
  }

  /** `Camera`: the mutable eye and film of the live scene. */
  class Camera {
    var eye: Vec3
    var film: Film

    constructor (eye: Vec3, film: Film)
      ensures State() == CameraState(eye, film)
    {
      this.eye := eye;
      this.film := film;
    }

    function State(): CameraState
      reads this
    {
      CameraState(eye, film)
    }

    method MoveLeft()
      modifies this
      ensures State() == Moved(old(State()), Left)
    {
      eye := eye.(x := eye.x - 1.0);
      film := film.(origin := film.origin.(x := film.origin.x - 1.0));
    }

    method MoveRight()
      modifies this
      ensures State() == Moved(old(State()), Right)
    {
      eye := eye.(x := eye.x + 1.0);
      film := film.(origin := film.origin.(x := film.origin.x + 1.0));
    }

    method MoveUp()
      modifies this
      ensures State() == Moved(old(State()), Up)
    {
      eye := eye.(y := eye.y + 1.0);
      film := film.(origin := film.origin.(y := film.origin.y + 1.0));
    }

    method MoveDown()
      modifies this
      ensures State() == Moved(old(State()), Down)
    {
      eye := eye.(y := eye.y - 1.0);
      film := film.(origin := film.origin.(y := film.origin.y - 1.0));
    }

    method MoveForward()
      modifies this
      ensures State() == Moved(old(State()), Forward)
    {
      eye := eye.(z := eye.z + 1.0);
      film := film.(origin := film.origin.(z := film.origin.z + 1.0));
    }

    method MoveBack()
      modifies this
      ensures State() == Moved(old(State()), Back)
    {
      eye := eye.(z := eye.z - 1.0);
      film := film.(origin := film.origin.(z := film.origin.z - 1.0));
    }

    method MoveEyeForward()
      modifies this
      ensures State() == Moved(old(State()), EyeForward)
    {
      eye := eye.(z := eye.z + 1.0);
    }

    method MoveEyeBack()
      modifies this
      ensures State() == Moved(old(State()), EyeBack)
    {
      eye := eye.(z := eye.z - 1.0);
    }
  }

  /** The `some(t => t >= EPSILON)` test of the shadow loop: a root ahead of the point. */
  predicate Occludes(s: Sphere, point: Vec3, direction: Vec3, sqrt: real -> real)
  {
    var ts := s.Intersect(point, direction, sqrt);
    exists i | 0 <= i < |ts| :: ts[i] >= Epsilon
  }

  /** Some sphere occludes the shadow ray. */
  predicate Shadowed(spheres: seq<Sphere>, point: Vec3, direction: Vec3, sqrt: real -> real)
  {
    exists k | 0 <= k < |spheres| :: Occludes(spheres[k], point, direction, sqrt)
  }

  /** `Light`: a point light. */
  datatype Light = Light(origin: Vec3, power: real) {

    /** The unshadowed contribution: Lambert cosine over the inverse-square falloff. */
    function DirectPower(point: Vec3, surface: Vec3, m: MathLib): real
    {
      var ray := origin.Sub(point);
      var direction := ray.Unit(m.sqrt);
      var cosine := Quotient(surface.Dot(direction), surface.Length(m.sqrt));
      Quotient(power * cosine, 4.0 * m.pi * Sqr(ray.Length(m.sqrt)))
    }

    /** What `illuminate` returns: 0 in shadow, the direct contribution otherwise. */
    function Illumination(point: Vec3, surface: Vec3, spheres: seq<Sphere>, m: MathLib): real
    {
      var direction := origin.Sub(point).Unit(m.sqrt);
      if Shadowed(spheres, point, direction, m.sqrt) then 0.0 else DirectPower(point, surface, m)
    }

    /**
     * `illuminate(point, surface, spheres)`: tests the shadow ray against every sphere in
     * turn and returns 0 at the first occluder, whatever the cosine term would be.
     */
    method Illuminate(point: Vec3, surface: Vec3, spheres: seq<Sphere>, m: MathLib) returns (r: real)
      ensures r == Illumination(point, surface, spheres, m)
      ensures Shadowed(spheres, point, origin.Sub(point).Unit(m.sqrt), m.sqrt) ==> r == 0.0
      ensures !Shadowed(spheres, point, origin.Sub(point).Unit(m.sqrt), m.sqrt) ==>
                r == DirectPower(point, surface, m)
    {
      var ray := origin.Sub(point);
      var direction := ray.Unit(m.sqrt);
      var blocked := ShadowTest(spheres, point, direction, m.sqrt);
      if blocked {
        return 0.0;
      }
      var cosine := Quotient(surface.Dot(direction), surface.Length(m.sqrt));
      r := Quotient(power * cosine, 4.0 * m.pi * Sqr(ray.Length(m.sqrt)));
    }
  }

  /** The loop of `illuminate`: the spheres in turn, stopping at the first occluder. */
  method ShadowTest(spheres: seq<Sphere>, point: Vec3, direction: Vec3, sqrt: real -> real) returns (blocked: bool)
    ensures blocked == Shadowed(spheres, point, direction, sqrt)
  {
    for k := 0 to |spheres|
      invariant forall j :: 0 <= j < k ==> !Occludes(spheres[j], point, direction, sqrt)
    {
      if Occludes(spheres[k], point, direction, sqrt) {
        return true;
      }
    }
    return false;
  }
}
