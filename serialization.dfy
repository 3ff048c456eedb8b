/**
 * The wire format of scene.js: each sphere, camera and light flattened into a
 * `Float64Array` of fixed length (7, 8 and 4 values), and the scene message that carries
 * the canvas size together with those arrays to every worker.
 */
module Serialization {
  import opened Geometry

  const SphereSize: nat := 7
  const CameraSize: nat := 8
  const LightSize: nat := 4

  /** `Sphere.serialize`: center xyz, radius, colour rgb. */
  function SerializeSphere(s: Sphere): (buf: seq<real>)
    ensures |buf| == SphereSize
  {
    [s.center.x, s.center.y, s.center.z, s.radius, s.color.red, s.color.green, s.color.blue]
  }

  /** `Sphere.deserialize`. */
  function DeserializeSphere(buf: seq<real>): Sphere
    requires |buf| == SphereSize
  {
    Sphere(Vec3(buf[0], buf[1], buf[2]), buf[3], RGB(buf[4], buf[5], buf[6]))
  }

  /** `Camera.serialize`: eye xyz, film origin xyz, film width, film height. */
  function SerializeCamera(c: CameraState): (buf: seq<real>)
    ensures |buf| == CameraSize
  {
    [c.eye.x, c.eye.y, c.eye.z,
     c.film.origin.x, c.film.origin.y, c.film.origin.z,
     c.film.width, c.film.height]
  }

  /** `Camera.deserialize`. */
  function DeserializeCamera(buf: seq<real>): CameraState
    requires |buf| == CameraSize
  {
    CameraState(Vec3(buf[0], buf[1], buf[2]), Film(Vec3(buf[3], buf[4], buf[5]), buf[6], buf[7]))
  }

  /** `Light.serialize`: origin xyz, power. */
  function SerializeLight(l: Light): (buf: seq<real>)
    ensures |buf| == LightSize
  {
    [l.origin.x, l.origin.y, l.origin.z, l.power]
  }

  /** `Light.deserialize`. */
  function DeserializeLight(buf: seq<real>): Light
    requires |buf| == LightSize
  {
    Light(Vec3(buf[0], buf[1], buf[2]), buf[3])
  }

  lemma SphereRoundTrip(s: Sphere)
    ensures DeserializeSphere(SerializeSphere(s)) == s
  {
  }

  lemma SphereLayoutRoundTrip(buf: seq<real>)
    requires |buf| == SphereSize
    ensures SerializeSphere(DeserializeSphere(buf)) == buf
  {
  }

  lemma CameraRoundTrip(c: CameraState)
    ensures DeserializeCamera(SerializeCamera(c)) == c
  {
  }

  lemma CameraLayoutRoundTrip(buf: seq<real>)
    requires |buf| == CameraSize
    ensures SerializeCamera(DeserializeCamera(buf)) == buf
  {
  }

  lemma LightRoundTrip(l: Light)
    ensures DeserializeLight(SerializeLight(l)) == l
  {
  }

  lemma LightLayoutRoundTrip(buf: seq<real>)
    requires |buf| == LightSize
    ensures SerializeLight(DeserializeLight(buf)) == buf
  {
  }

  /** The `canvas` field of the scene message: the frame size in pixels. */
  datatype Canvas = Canvas(width: nat, height: nat)

  /** The message `Scene.serialize` builds. */
  datatype SceneData = SceneData(canvas: Canvas, camera: seq<real>,
                                 spheres: seq<seq<real>>, lights: seq<seq<real>>)

  /** A scene as a worker holds it: the value `Scene.deserialize` returns. */
  datatype Snapshot = Snapshot(canvas: Canvas, camera: CameraState,
                               spheres: seq<Sphere>, lights: seq<Light>)

  /** Every array of the message has its layout's length. */
  predicate WellFormed(d: SceneData)
  {
    && |d.camera| == CameraSize
    && (forall k :: 0 <= k < |d.spheres| ==> |d.spheres[k]| == SphereSize)
    && (forall k :: 0 <= k < |d.lights| ==> |d.lights[k]| == LightSize)
  }

  function SerializeSpheres(spheres: seq<Sphere>): (bufs: seq<seq<real>>)
    ensures |bufs| == |spheres|
    ensures forall k :: 0 <= k < |bufs| ==> bufs[k] == SerializeSphere(spheres[k])
  {
    if spheres == [] then []
    else SerializeSpheres(spheres[..|spheres| - 1]) + [SerializeSphere(spheres[|spheres| - 1])]
  }

  function DeserializeSpheres(bufs: seq<seq<real>>): (spheres: seq<Sphere>)
    requires forall k :: 0 <= k < |bufs| ==> |bufs[k]| == SphereSize
    ensures |spheres| == |bufs|
    ensures forall k :: 0 <= k < |bufs| ==> spheres[k] == DeserializeSphere(bufs[k])
  {
    if bufs == [] then []
    else DeserializeSpheres(bufs[..|bufs| - 1]) + [DeserializeSphere(bufs[|bufs| - 1])]
  }

  function SerializeLights(lights: seq<Light>): (bufs: seq<seq<real>>)
    ensures |bufs| == |lights|
    ensures forall k :: 0 <= k < |bufs| ==> bufs[k] == SerializeLight(lights[k])
  {
    if lights == [] then []
    else SerializeLights(lights[..|lights| - 1]) + [SerializeLight(lights[|lights| - 1])]
  }

  function DeserializeLights(bufs: seq<seq<real>>): (lights: seq<Light>)
    requires forall k :: 0 <= k < |bufs| ==> |bufs[k]| == LightSize
    ensures |lights| == |bufs|
    ensures forall k :: 0 <= k < |bufs| ==> lights[k] == DeserializeLight(bufs[k])
  {
    if bufs == [] then []
    else DeserializeLights(bufs[..|bufs| - 1]) + [DeserializeLight(bufs[|bufs| - 1])]
  }

  /** `Scene.serialize`: the canvas size, the camera, and the spheres and lights in order. */
  function SerializeScene(s: Snapshot): (d: SceneData)
    ensures WellFormed(d)
    ensures d.canvas == s.canvas
    ensures |d.spheres| == |s.spheres| && |d.lights| == |s.lights|
  {
    SceneData(s.canvas, SerializeCamera(s.camera), SerializeSpheres(s.spheres), SerializeLights(s.lights))
  }

  /** `Scene.deserialize`. */
  function DeserializeScene(d: SceneData): (s: Snapshot)
    requires WellFormed(d)
    ensures s.canvas == d.canvas
    ensures |s.spheres| == |d.spheres| && |s.lights| == |d.lights|
  {
    Snapshot(d.canvas, DeserializeCamera(d.camera), DeserializeSpheres(d.spheres), DeserializeLights(d.lights))
  }

  /**
   * A worker's copy equals the scene it was made from: canvas size, camera, and every
   * sphere and light, in order.
   */
  lemma SceneRoundTrip(s: Snapshot)
    ensures DeserializeScene(SerializeScene(s)) == s
  {
    var d := SerializeScene(s);
    var back := DeserializeScene(d);
    forall k | 0 <= k < |s.spheres|
      ensures back.spheres[k] == s.spheres[k]
    {
      SphereRoundTrip(s.spheres[k]);
    }
    forall k | 0 <= k < |s.lights|
      ensures back.lights[k] == s.lights[k]
    {
      LightRoundTrip(s.lights[k]);
    }
    CameraRoundTrip(s.camera);
  }

  /** A well-formed message is fully determined by the scene it decodes to. */
  lemma SceneDataRoundTrip(d: SceneData)
    requires WellFormed(d)
    ensures SerializeScene(DeserializeScene(d)) == d
  {
    var back := SerializeScene(DeserializeScene(d));
    forall k | 0 <= k < |d.spheres|
      ensures back.spheres[k] == d.spheres[k]
    {
      SphereLayoutRoundTrip(d.spheres[k]);
    }
    forall k | 0 <= k < |d.lights|
      ensures back.lights[k] == d.lights[k]
    {
      LightLayoutRoundTrip(d.lights[k]);
    }
    CameraLayoutRoundTrip(d.camera);
  }
}
