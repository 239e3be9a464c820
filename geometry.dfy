/** Model-space values shared by every component: points, triangles and the
    trigonometry that the mesh builder and the camera take from Python's
    `math` module. */
module Geometry {

  /** A point in model space (`Point3D`). */
  datatype Point3D = Point3D(x: real, y: real, z: real)

  /** `math.pi`, `math.sin` and `math.cos`. Their values are left
      uninterpreted: the model proves nothing that depends on what they are. */
  datatype Trig = Trig(pi: real, sin: real -> real, cos: real -> real)

  function Min3(a: real, b: real, c: real): real {
    if a <= b && a <= c then a else if b <= c then b else c
  }

  function Max3(a: real, b: real, c: real): real {
    if a >= b && a >= c then a else if b >= c then b else c
  }

  /** A triangle of three vertices. Triangles are never changed after they are
      built, so the centre that `Triangle.__init__` stores is a function of the
      vertices. */
  datatype Triangle = Triangle(p1: Point3D, p2: Point3D, p3: Point3D) {

    /** The vertex list, in construction order. */
    function Points(): seq<Point3D> {
      [p1, p2, p3]
    }

    /** The centroid: the arithmetic mean of the three vertices in each
        coordinate, so it lies within the vertices' range in each of them. */
    function Center(): (c: Point3D)
      ensures 3.0 * c.x == p1.x + p2.x + p3.x
      ensures 3.0 * c.y == p1.y + p2.y + p3.y
      ensures 3.0 * c.z == p1.z + p2.z + p3.z
      ensures Min3(p1.x, p2.x, p3.x) <= c.x <= Max3(p1.x, p2.x, p3.x)
      ensures Min3(p1.y, p2.y, p3.y) <= c.y <= Max3(p1.y, p2.y, p3.y)
      ensures Min3(p1.z, p2.z, p3.z) <= c.z <= Max3(p1.z, p2.z, p3.z)
    {
      Point3D((p1.x + p2.x + p3.x) / 3.0,
              (p1.y + p2.y + p3.y) / 3.0,
              (p1.z + p2.z + p3.z) / 3.0)
    }
  }

  /** Moving every vertex by the same offset moves the centre by that offset. */
  lemma CenterTranslates(t: Triangle, dx: real, dy: real, dz: real)
    ensures var m := Triangle(Point3D(t.p1.x + dx, t.p1.y + dy, t.p1.z + dz),
                              Point3D(t.p2.x + dx, t.p2.y + dy, t.p2.z + dz),
                              Point3D(t.p3.x + dx, t.p3.y + dy, t.p3.z + dz));
            m.Center() == Point3D(t.Center().x + dx, t.Center().y + dy, t.Center().z + dz)
  {
  }
}
