/** The mesh builder `create_mobius_strip`: a `uSteps` by `vSteps` grid over
    the strip's parameters, each cell split into two triangles on the same
    diagonal. */
module Mesh {
  import opened Geometry

  /** The four arguments of `create_mobius_strip`. */
  datatype Shape = Shape(radius: real, twist: real, uSteps: nat, vSteps: nat)

  /** The surface point at parameters `u` (along the strip) and `v` (across
      it), as each of `p1` to `p4` is computed. */
  function MobiusPoint(radius: real, twist: real, trig: Trig, u: real, v: real): Point3D {
    Point3D((radius + v * trig.cos(u / 2.0)) * trig.cos(u),
            (radius + v * trig.cos(u / 2.0)) * trig.sin(u),
            twist * v * trig.sin(u / 2.0))
  }

  /** Each cross-section of the strip is a straight segment: the point at `v`
      is the centre-line point plus `v` times a direction fixed by `u`. */
  lemma MobiusPointRuling(radius: real, twist: real, trig: Trig, u: real, v: real)
    ensures var p, o := MobiusPoint(radius, twist, trig, u, v), MobiusPoint(radius, twist, trig, u, 0.0);
            && o == Point3D(radius * trig.cos(u), radius * trig.sin(u), 0.0)
            && p.x == o.x + v * (trig.cos(u / 2.0) * trig.cos(u))
            && p.y == o.y + v * (trig.cos(u / 2.0) * trig.sin(u))
            && p.z == o.z + v * (twist * trig.sin(u / 2.0))
  {
  }

  /** The `u` value of grid line `i`: `2 * math.pi * i / u_steps` (`u1` of
      cell row `i`, `u2` of row `i - 1`). */
  function U(pi: real, uSteps: nat, i: int): real
    requires uSteps > 0
  {
    2.0 * pi * (i as real) / (uSteps as real)
  }

  /** The `v` value of grid line `j`: `-0.5 + j / v_steps` (`v1` of cell
      column `j`, `v2` of column `j - 1`). */
  function V(vSteps: nat, j: int): real
    requires vSteps > 0
  {
    -0.5 + (j as real) / (vSteps as real)
  }

  /** The grid lines span one full turn along the strip, from `u = 0` to
      `u = 2 pi`, and its whole width across it, from `v = -0.5` to `v = 0.5`. */
  lemma GridLineEnds(pi: real, uSteps: nat, vSteps: nat)
    requires uSteps > 0 && vSteps > 0
    ensures U(pi, uSteps, 0) == 0.0 && U(pi, uSteps, uSteps) == 2.0 * pi
    ensures V(vSteps, 0) == -0.5 && V(vSteps, vSteps) == 0.5
  {
    var n := uSteps as real;
    var x := 2.0 * pi;
    assert U(pi, uSteps, uSteps) == x * n / n;
    MulDiv(x, n);
    MulDiv(1.0, vSteps as real);
  }

  lemma MulDiv(x: real, n: real)
    requires n != 0.0
    ensures x * n / n == x
  {
  }

  /** The grid corner `P(i, j)`. */
  function Corner(s: Shape, trig: Trig, i: int, j: int): Point3D
    requires s.uSteps > 0 && s.vSteps > 0
  {
    MobiusPoint(s.radius, s.twist, trig, U(trig.pi, s.uSteps, i), V(s.vSteps, j))
  }

  /** The first triangle of cell `(i, j)`: `(p1, p2, p3)`. */
  function CellA(s: Shape, trig: Trig, i: int, j: int): Triangle
    requires s.uSteps > 0 && s.vSteps > 0
  {
    Triangle(Corner(s, trig, i, j), Corner(s, trig, i, j + 1), Corner(s, trig, i + 1, j))
  }

  /** The second triangle of cell `(i, j)`: `(p2, p4, p3)`. */
  function CellB(s: Shape, trig: Trig, i: int, j: int): Triangle
    requires s.uSteps > 0 && s.vSteps > 0
  {
    Triangle(Corner(s, trig, i, j + 1), Corner(s, trig, i + 1, j + 1), Corner(s, trig, i + 1, j))
  }

  /** The triangles appended by the first `n` passes of the inner loop for row `i`. */
  function Row(s: Shape, trig: Trig, i: nat, n: nat): seq<Triangle>
    requires i < s.uSteps && n <= s.vSteps
  {
    if n == 0 then [] else Row(s, trig, i, n - 1) + [CellA(s, trig, i, n - 1), CellB(s, trig, i, n - 1)]
  }

  /** The triangles appended by the first `n` passes of the outer loop. */
  function Grid(s: Shape, trig: Trig, n: nat): seq<Triangle>
    requires n <= s.uSteps
  {
    if n == 0 then [] else Grid(s, trig, n - 1) + Row(s, trig, n - 1, s.vSteps)
  }

  /** The list `create_mobius_strip` returns. */
  function MobiusMesh(s: Shape, trig: Trig): seq<Triangle> {
    Grid(s, trig, s.uSteps)
  }

  /** Position of cell `(i, j)`'s first triangle: cells are u-major, then v,
      two triangles each, so each earlier row takes `2 * vSteps` places. */
  function Slot(i: nat, j: nat, vSteps: nat): nat {
    if i == 0 then 2 * j else Slot(i - 1, j, vSteps) + 2 * vSteps
  }

  /** The closed form of `Slot`: position `2 * (i * vSteps + j)`. */
  lemma {:induction false} SlotFormula(i: nat, j: nat, vSteps: nat)
    ensures Slot(i, j, vSteps) == 2 * (i * vSteps + j)
  {
    if i > 0 {
      SlotFormula(i - 1, j, vSteps);
      assert (i - 1) * vSteps + vSteps == i * vSteps;
    }
  }

  lemma {:induction false} SlotBelow(i: nat, j: nat, n: nat, v: nat)
    requires i < n && j < v
    ensures Slot(i, j, v) + 2 <= Slot(n, 0, v)
  {
    if i < n - 1 {
      SlotBelow(i, j, n - 1, v);
    } else {
      SlotColumn(i, j, v);
    }
  }

  lemma {:induction false} SlotColumn(i: nat, j: nat, v: nat)
    ensures Slot(i, j, v) == Slot(i, 0, v) + 2 * j
  {
    if i > 0 {
      SlotColumn(i - 1, j, v);
    }
  }

  lemma {:induction false} RowLength(s: Shape, trig: Trig, i: nat, n: nat)
    requires i < s.uSteps && n <= s.vSteps
    ensures |Row(s, trig, i, n)| == 2 * n
  {
    if n > 0 {
      RowLength(s, trig, i, n - 1);
    }
  }

  lemma {:induction false} RowAt(s: Shape, trig: Trig, i: nat, n: nat, j: nat)
    requires i < s.uSteps && j < n <= s.vSteps
    ensures |Row(s, trig, i, n)| == 2 * n
    ensures Row(s, trig, i, n)[2 * j] == CellA(s, trig, i, j)
    ensures Row(s, trig, i, n)[2 * j + 1] == CellB(s, trig, i, j)
  {
    RowLength(s, trig, i, n);
    RowLength(s, trig, i, n - 1);
    if j < n - 1 {
      RowAt(s, trig, i, n - 1, j);
    }
  }

  lemma {:induction false} GridLength(s: Shape, trig: Trig, n: nat)
    requires n <= s.uSteps
    ensures |Grid(s, trig, n)| == Slot(n, 0, s.vSteps)
  {
    if n > 0 {
      GridLength(s, trig, n - 1);
      RowLength(s, trig, n - 1, s.vSteps);
    }
  }

  lemma {:induction false} GridAt(s: Shape, trig: Trig, n: nat, i: nat, j: nat)
    requires n <= s.uSteps && i < n && j < s.vSteps
    ensures Slot(i, j, s.vSteps) + 1 < |Grid(s, trig, n)|
    ensures Grid(s, trig, n)[Slot(i, j, s.vSteps)] == CellA(s, trig, i, j)
    ensures Grid(s, trig, n)[Slot(i, j, s.vSteps) + 1] == CellB(s, trig, i, j)
  {
    var v := s.vSteps;
    GridLength(s, trig, n);
    GridLength(s, trig, n - 1);
    SlotBelow(i, j, n, v);
    if i < n - 1 {
      GridAt(s, trig, n - 1, i, j);
    } else {
      SlotColumn(i, j, v);
      RowAt(s, trig, i, v, j);
    }
  }

  /** `create_mobius_strip` returns exactly `2 * u_steps * v_steps` triangles;
      with either count zero the list is empty. */
  lemma MeshLength(s: Shape, trig: Trig)
    ensures |MobiusMesh(s, trig)| == 2 * s.uSteps * s.vSteps
    ensures s.uSteps == 0 || s.vSteps == 0 ==> MobiusMesh(s, trig) == []
  {
    GridLength(s, trig, s.uSteps);
    SlotFormula(s.uSteps, 0, s.vSteps);
  }

  /** Cell `(i, j)` holds triangle A at position `2 * (i * vSteps + j)` and
      triangle B right after it. */
  lemma MeshLayout(s: Shape, trig: Trig, i: nat, j: nat)
    requires i < s.uSteps && j < s.vSteps
    ensures Slot(i, j, s.vSteps) == 2 * (i * s.vSteps + j)
    ensures 2 * (i * s.vSteps + j) + 1 < |MobiusMesh(s, trig)|
    ensures MobiusMesh(s, trig)[2 * (i * s.vSteps + j)] == CellA(s, trig, i, j)
    ensures MobiusMesh(s, trig)[2 * (i * s.vSteps + j) + 1] == CellB(s, trig, i, j)
  {
    GridAt(s, trig, s.uSteps, i, j);
    SlotFormula(i, j, s.vSteps);
  }

  /** Cell `(i, j)`'s two triangles sit at position `2 * (i * vSteps + j)`
      of `m` and the one after it. */
  ghost predicate CellsInOrder(s: Shape, trig: Trig, m: seq<Triangle>) {
    forall i, j :: 0 <= i < s.uSteps && 0 <= j < s.vSteps ==>
      && Slot(i, j, s.vSteps) == 2 * (i * s.vSteps + j)
      && Slot(i, j, s.vSteps) + 1 < |m|
      && m[Slot(i, j, s.vSteps)] == CellA(s, trig, i, j)
      && m[Slot(i, j, s.vSteps) + 1] == CellB(s, trig, i, j)
  }

  /** `MeshLayout` for every cell at once. */
  lemma MeshLayoutAll(s: Shape, trig: Trig)
    ensures |MobiusMesh(s, trig)| == 2 * s.uSteps * s.vSteps
    ensures CellsInOrder(s, trig, MobiusMesh(s, trig))
  {
    MeshLength(s, trig);
    forall i, j | 0 <= i < s.uSteps && 0 <= j < s.vSteps
      ensures Slot(i, j, s.vSteps) == 2 * (i * s.vSteps + j)
      ensures Slot(i, j, s.vSteps) + 1 < |MobiusMesh(s, trig)|
      ensures MobiusMesh(s, trig)[Slot(i, j, s.vSteps)] == CellA(s, trig, i, j)
      ensures MobiusMesh(s, trig)[Slot(i, j, s.vSteps) + 1] == CellB(s, trig, i, j)
    {
      MeshLayout(s, trig, i, j);
    }
  }

  /** Position `k` below `2 * u * v` splits into a cell `(i, j)` of the grid
      and a half `k % 2`. */
  lemma CellOf(k: nat, u: nat, v: nat)
    requires k < 2 * u * v
    ensures v > 0
    ensures k / 2 / v < u
    ensures Slot(k / 2 / v, k / 2 % v, v) + k % 2 == k
  {
    if v == 0 {
      assert false;
    }
    var c := k / 2;
    assert c < u * v by {
      assert 2 * u * v == 2 * (u * v);
    }
    DivMod(c, v);
    DivBelow(c, u, v);
    SlotFormula(c / v, c % v, v);
  }

  /** Euclidean division by a positive divisor. */
  lemma DivMod(c: nat, v: nat)
    requires v > 0
    ensures c == c / v * v + c % v
  {
  }

  lemma MulLe(a: nat, b: nat, v: nat)
    requires a <= b
    ensures a * v <= b * v
  {
  }

  /** A number below `n * v` has quotient below `n`. */
  lemma DivBelow(c: nat, n: nat, v: nat)
    requires v > 0 && c < n * v
    ensures c / v < n
  {
    DivMod(c, v);
    if c / v >= n {
      MulLe(n, c / v, v);
      assert false;
    }
  }

  /** Every position of the mesh belongs to one cell: position `k` is
      triangle A (even `k`) or B (odd `k`) of cell `(k / 2 / vSteps, k / 2 % vSteps)`. */
  lemma MeshAt(s: Shape, trig: Trig, k: nat)
    requires k < |MobiusMesh(s, trig)|
    ensures s.uSteps > 0 && s.vSteps > 0
    ensures var i, j := k / 2 / s.vSteps, k / 2 % s.vSteps;
            && i < s.uSteps
            && Slot(i, j, s.vSteps) + k % 2 == k
            && MobiusMesh(s, trig)[k] == if k % 2 == 0 then CellA(s, trig, i, j) else CellB(s, trig, i, j)
  {
    MeshLength(s, trig);
    CellOf(k, s.uSteps, s.vSteps);
    var i, j := k / 2 / s.vSteps, k / 2 % s.vSteps;
    GridAt(s, trig, s.uSteps, i, j);
    if k % 2 == 0 {
      assert k == Slot(i, j, s.vSteps);
    } else {
      assert k == Slot(i, j, s.vSteps) + 1;
    }
  }

  /** Neighbouring triangles share their corners exactly: the two halves of
      a cell share the diagonal, a cell shares its far u-edge with the next
      row's cell and its far v-edge with the next column's cell. */
  lemma SharedEdges(s: Shape, trig: Trig, i: nat, j: nat)
    requires i < s.uSteps && j < s.vSteps
    ensures Slot(i, j, s.vSteps) + 1 < |MobiusMesh(s, trig)|
    ensures var m, k := MobiusMesh(s, trig), Slot(i, j, s.vSteps);
            m[k + 1].p1 == m[k].p2 && m[k + 1].p3 == m[k].p3
    ensures i + 1 < s.uSteps ==>
              var m, k, n := MobiusMesh(s, trig), Slot(i, j, s.vSteps), Slot(i + 1, j, s.vSteps);
              n < |m| && m[n].p1 == m[k + 1].p3 && m[n].p2 == m[k + 1].p2
    ensures j + 1 < s.vSteps ==>
              var m, k, n := MobiusMesh(s, trig), Slot(i, j, s.vSteps), Slot(i, j + 1, s.vSteps);
              n < |m| && m[n].p1 == m[k].p2 && m[n].p3 == m[k + 1].p2
  {
    CellDiagonal(s, trig, i, j);
    if i + 1 < s.uSteps {
      NextRowEdge(s, trig, i, j);
    }
    if j + 1 < s.vSteps {
      NextColumnEdge(s, trig, i, j);
    }
  }

  /** The two triangles of a cell share the diagonal `p2`-`p3`. */
  lemma CellDiagonal(s: Shape, trig: Trig, i: nat, j: nat)
    requires i < s.uSteps && j < s.vSteps
    ensures Slot(i, j, s.vSteps) + 1 < |MobiusMesh(s, trig)|
    ensures var m, k := MobiusMesh(s, trig), Slot(i, j, s.vSteps);
            m[k + 1].p1 == m[k].p2 && m[k + 1].p3 == m[k].p3
  {
    GridAt(s, trig, s.uSteps, i, j);
  }

  /** Cell `(i + 1, j)` starts on the edge where cell `(i, j)` ends. */
  lemma NextRowEdge(s: Shape, trig: Trig, i: nat, j: nat)
    requires i + 1 < s.uSteps && j < s.vSteps
    ensures var m, k, n := MobiusMesh(s, trig), Slot(i, j, s.vSteps), Slot(i + 1, j, s.vSteps);
            k + 1 < |m| && n < |m| && m[n].p1 == m[k + 1].p3 && m[n].p2 == m[k + 1].p2
  {
    GridAt(s, trig, s.uSteps, i, j);
    GridAt(s, trig, s.uSteps, i + 1, j);
  }

  /** Cell `(i, j + 1)` starts on the edge that cell `(i, j)` shares with it. */
  lemma NextColumnEdge(s: Shape, trig: Trig, i: nat, j: nat)
    requires i < s.uSteps && j + 1 < s.vSteps
    ensures var m, k, n := MobiusMesh(s, trig), Slot(i, j, s.vSteps), Slot(i, j + 1, s.vSteps);
            k + 1 < |m| && n < |m| && m[n].p1 == m[k].p2 && m[n].p3 == m[k + 1].p2
  {
    GridAt(s, trig, s.uSteps, i, j);
    GridAt(s, trig, s.uSteps, i, j + 1);
  }

  /** `create_mobius_strip(radius, twist, u_steps, v_steps)`. */
  method CreateMobiusStrip(radius: real, twist: real, uSteps: nat, vSteps: nat, trig: Trig)
    returns (strips: seq<Triangle>)
    ensures strips == MobiusMesh(Shape(radius, twist, uSteps, vSteps), trig)
    ensures |strips| == 2 * uSteps * vSteps
    ensures CellsInOrder(Shape(radius, twist, uSteps, vSteps), trig, strips)
  {
    ghost var s := Shape(radius, twist, uSteps, vSteps);
    strips := [];
    var i := 0;
    while i < uSteps
      invariant 0 <= i <= uSteps
      invariant strips == Grid(s, trig, i)
    {
      var u1 := U(trig.pi, uSteps, i);
      var u2 := U(trig.pi, uSteps, i + 1);
      var j := 0;
      while j < vSteps
        invariant 0 <= j <= vSteps
        invariant strips == Grid(s, trig, i) + Row(s, trig, i, j)
      {
        var v1 := V(vSteps, j);
        var v2 := V(vSteps, j + 1);
        var p1 := MobiusPoint(radius, twist, trig, u1, v1);
        var p2 := MobiusPoint(radius, twist, trig, u1, v2);
        var p3 := MobiusPoint(radius, twist, trig, u2, v1);
        var p4 := MobiusPoint(radius, twist, trig, u2, v2);
        strips := strips + [Triangle(p1, p2, p3)];
        strips := strips + [Triangle(p2, p4, p3)];
        j := j + 1;
      }
      i := i + 1;
    }
    MeshLayoutAll(s, trig);
  }
}
