/** The camera: a rotation angle that key presses change, a fixed light and a
    fixed perspective distance. */
module CameraModel {
  import opened Geometry

  /** `a ** 2`. */
  function Square(a: real): (r: real)
    ensures r >= 0.0
  {
    a * a
  }

  /** The squared Euclidean distance between two points. */
  function SqDist(p: Point3D, q: Point3D): (d: real)
    ensures d >= 0.0
  {
    Square(p.x - q.x) + Square(p.y - q.y) + Square(p.z - q.z)
  }

  /** Rotation about the vertical (y) axis by the angle whose cosine is `c`
      and sine is `s`, as the first three lines of `project` compute it. */
  function RotateY(c: real, s: real, p: Point3D): (q: Point3D)
    ensures q.y == p.y
  {
    Point3D(p.x * c - p.z * s, p.y, p.x * s + p.z * c)
  }

  /** On the unit circle the rotation is undone by rotating back. */
  lemma RotateYInverse(c: real, s: real, p: Point3D)
    requires c * c + s * s == 1.0
    ensures RotateY(c, -s, RotateY(c, s, p)) == p
  {
    var q := RotateY(c, s, p);
    var r := RotateY(c, -s, q);
    calc {
      r.x;
      (p.x * c - p.z * s) * c + (p.x * s + p.z * c) * s;
      p.x * (c * c + s * s);
      p.x;
    }
    calc {
      r.z;
      (p.x * c - p.z * s) * -s + (p.x * s + p.z * c) * c;
      p.z * (c * c + s * s);
      p.z;
    }
  }

  /** On the unit circle the rotation keeps the distance from the y axis. */
  lemma RotateYKeepsRadius(c: real, s: real, p: Point3D)
    requires c * c + s * s == 1.0
    ensures var q := RotateY(c, s, p); q.x * q.x + q.z * q.z == p.x * p.x + p.z * p.z
  {
    var q := RotateY(c, s, p);
    calc {
      q.x * q.x + q.z * q.z;
      (p.x * c - p.z * s) * (p.x * c - p.z * s) + (p.x * s + p.z * c) * (p.x * s + p.z * c);
      p.x * p.x * (c * c + s * s) + p.z * p.z * (c * c + s * s);
      p.x * p.x + p.z * p.z;
    }
  }

  class Camera {
    /** Perspective strength; `Camera()` is built with the default 5. */
    const dist: real
    /** Rotation about the y axis, in radians; grows without wrap-around. */
    var angle: real
    const lightPos: Point3D

    constructor (dist: real)
      ensures this.dist == dist && angle == 0.0 && lightPos == Point3D(5.0, 5.0, 5.0)
    {
      this.dist := dist;
      angle := 0.0;
      lightPos := Point3D(5.0, 5.0, 5.0);
    }

    /** `calculate_light_intensity`: one minus a hundredth of the squared
        distance to the light, floored at zero. */
    function LightIntensity(p: Point3D): (r: real)
      ensures 0.0 <= r <= 1.0
      ensures r == 0.0 <==> SqDist(p, lightPos) >= 100.0
      ensures r == 1.0 <==> SqDist(p, lightPos) == 0.0
      ensures p == lightPos ==> r == 1.0
    {
      var d := SqDist(p, lightPos);
      if 0.0 >= 1.0 - d / 100.0 then 0.0 else 1.0 - d / 100.0
    }

    /** Light falls off as the squared distance grows. */
    lemma LightFalloff(p: Point3D, q: Point3D)
      requires SqDist(p, lightPos) <= SqDist(q, lightPos)
      ensures LightIntensity(q) <= LightIntensity(p)
    {
    }

    /** The rotated depth `z'` of a point at the current angle. */
    function Depth(trig: Trig, p: Point3D): real
      reads this
    {
      RotateY(trig.cos(angle), trig.sin(angle), p).z
    }

    /** `project` divides by `dist + z'`; Python raises ZeroDivisionError when it is zero. */
    predicate Projectable(trig: Trig, p: Point3D)
      reads this
    {
      dist + Depth(trig, p) != 0.0
    }

    /** `project`: rotate, then scale the rotated x and the unrotated y by the
        same factor `dist / (dist + z')`. */
    function Project(trig: Trig, p: Point3D): (r: (real, real))
      reads this
      requires Projectable(trig, p)
      ensures var q := RotateY(trig.cos(angle), trig.sin(angle), p);
              && r.0 * (dist + q.z) == q.x * dist
              && r.1 * (dist + q.z) == p.y * dist
              && r.0 * p.y == r.1 * q.x
    {
      var q := RotateY(trig.cos(angle), trig.sin(angle), p);
      var f := dist / (dist + q.z);
      (q.x * f, q.y * f)
    }

    /** At angle zero (cosine 1, sine 0) the rotation is the identity and
        projection is the plain perspective divide of x and y by `dist + z`. */
    lemma ProjectUnrotated(trig: Trig, p: Point3D)
      requires trig.cos(angle) == 1.0 && trig.sin(angle) == 0.0
      requires dist + p.z != 0.0
      ensures Projectable(trig, p)
      ensures Project(trig, p) == (p.x * dist / (dist + p.z), p.y * dist / (dist + p.z))
    {
      var q := RotateY(trig.cos(angle), trig.sin(angle), p);
      assert q == p;
      var e := dist + p.z;
      assert Depth(trig, p) == p.z;
      assert Project(trig, p).0 == p.x * (dist / e);
      assert Project(trig, p).1 == p.y * (dist / e);
      assert p.x * (dist / e) == p.x * dist / e;
      assert p.y * (dist / e) == p.y * dist / e;
    }
  }
}
