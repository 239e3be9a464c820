/** One pass of `draw`: clear the canvas, sort the triangles far to near,
    and paint each one as a polygon whose fill is its shaded colour and whose
    corners are the projected vertices on the 800 x 600 canvas. */
module Painter {
  import opened Geometry
  import opened CameraModel
  import opened Colour
  import opened DepthSort

  /** `canvas.create_polygon(points, fill=color)`: six screen coordinates
      `sx1, sy1, sx2, sy2, sx3, sy3` and the `#rrggbb` fill. */
  datatype Polygon = Polygon(points: seq<real>, fill: string)

  /** What one pass leaves on the canvas. `aborted` is set when a projection
      divided by zero: Python raises ZeroDivisionError there, and the polygons
      created before it stay on the canvas. */
  datatype Frame = Frame(polygons: seq<Polygon>, aborted: bool)

  /** The viewport: the projected origin is the canvas centre (400, 300), one
      unit is 200 pixels, and screen y grows downwards. A projected point is
      on the canvas exactly when |x| <= 2 and |y| <= 1.5. */
  function ToScreen(x: real, y: real): (s: (real, real))
    ensures s.0 - 400.0 == 200.0 * x
    ensures 300.0 - s.1 == 200.0 * y
    ensures (0.0 <= s.0 <= 800.0 && 0.0 <= s.1 <= 600.0) <==> (-2.0 <= x <= 2.0 && -1.5 <= y <= 1.5)
  {
    (400.0 + x * 200.0, 300.0 - y * 200.0)
  }

  /** The projected point that a canvas position shows. */
  function FromScreen(sx: real, sy: real): (p: (real, real))
    ensures ToScreen(p.0, p.1) == (sx, sy)
  {
    ((sx - 400.0) / 200.0, (300.0 - sy) / 200.0)
  }

  /** The viewport is one-to-one: reading a screen position back gives the
      projected point, the origin sits at the centre, and y is flipped. */
  lemma ScreenRoundTrip(x: real, y: real, y2: real)
    ensures FromScreen(ToScreen(x, y).0, ToScreen(x, y).1) == (x, y)
    ensures ToScreen(0.0, 0.0) == (400.0, 300.0)
    ensures y < y2 <==> ToScreen(x, y).1 > ToScreen(x, y2).1
  {
    var s := ToScreen(x, y);
    assert (s.0 - 400.0) / 200.0 == x;
    assert (300.0 - s.1) / 200.0 == y;
  }

  /** The mean of the light intensities at the three vertices. It is zero
      exactly when every vertex is at least 10 units from the light, and one
      exactly when every vertex is at the light. */
  function Shade(cam: Camera, t: Triangle): (r: real)
    ensures 0.0 <= r <= 1.0
    ensures Min3(cam.LightIntensity(t.p1), cam.LightIntensity(t.p2), cam.LightIntensity(t.p3)) <= r
    ensures r <= Max3(cam.LightIntensity(t.p1), cam.LightIntensity(t.p2), cam.LightIntensity(t.p3))
    ensures r == 0.0 <==> (SqDist(t.p1, cam.lightPos) >= 100.0 && SqDist(t.p2, cam.lightPos) >= 100.0
                           && SqDist(t.p3, cam.lightPos) >= 100.0)
    ensures r == 1.0 <==> (SqDist(t.p1, cam.lightPos) == 0.0 && SqDist(t.p2, cam.lightPos) == 0.0
                           && SqDist(t.p3, cam.lightPos) == 0.0)
  {
    (cam.LightIntensity(t.p1) + cam.LightIntensity(t.p2) + cam.LightIntensity(t.p3)) / 3.0
  }

  predicate AllProjectable(cam: Camera, trig: Trig, ps: seq<Point3D>)
    reads cam
  {
    forall k :: 0 <= k < |ps| ==> cam.Projectable(trig, ps[k])
  }

  /** A triangle can be painted when none of its vertices divides by zero. */
  predicate Drawable(cam: Camera, trig: Trig, t: Triangle)
    reads cam
  {
    AllProjectable(cam, trig, t.Points())
  }

  /** The screen position of one vertex. */
  function ScreenPoint(cam: Camera, trig: Trig, p: Point3D): (real, real)
    reads cam
    requires cam.Projectable(trig, p)
  {
    var xy := cam.Project(trig, p);
    ToScreen(xy.0, xy.1)
  }

  /** The flat coordinate list `points.extend([sx, sy])` builds: two entries
      per vertex, in vertex order. */
  function ScreenOf(cam: Camera, trig: Trig, ps: seq<Point3D>): (r: seq<real>)
    reads cam
    requires AllProjectable(cam, trig, ps)
    ensures |r| == 2 * |ps|
    ensures forall k :: 0 <= k < |ps| ==>
              r[2 * k] == ScreenPoint(cam, trig, ps[k]).0 && r[2 * k + 1] == ScreenPoint(cam, trig, ps[k]).1
  {
    if ps == [] then []
    else
      var s := ScreenPoint(cam, trig, ps[|ps| - 1]);
      ScreenOf(cam, trig, ps[..|ps| - 1]) + [s.0, s.1]
  }

  /** The polygon painted for a drawable triangle. */
  function Command(cam: Camera, trig: Trig, t: Triangle): (c: Polygon)
    reads cam
    requires Drawable(cam, trig, t)
    ensures |c.points| == 6 && |c.fill| == 7
  {
    Polygon(ScreenOf(cam, trig, t.Points()), ColourOf(Shade(cam, t)))
  }

  /** The inner loop of `draw`: project each vertex and collect the screen
      coordinates; `ok` is false when a projection divides by zero. */
  method PolygonPoints(cam: Camera, trig: Trig, t: Triangle) returns (points: seq<real>, ok: bool)
    ensures ok <==> Drawable(cam, trig, t)
    ensures ok ==> points == ScreenOf(cam, trig, t.Points())
  {
    var ps := t.Points();
    points := [];
    ok := true;
    var k := 0;
    while k < |ps|
      invariant 0 <= k <= |ps|
      invariant AllProjectable(cam, trig, ps[..k])
      invariant points == ScreenOf(cam, trig, ps[..k])
    {
      if !cam.Projectable(trig, ps[k]) {
        ok := false;
        return;
      }
      var xy := cam.Project(trig, ps[k]);
      var sx := 400.0 + xy.0 * 200.0;
      var sy := 300.0 - xy.1 * 200.0;
      assert ps[..k + 1][..k] == ps[..k];
      points := points + [sx, sy];
      k := k + 1;
    }
    assert ps[..k] == ps;
  }

  predicate AllDrawable(cam: Camera, trig: Trig, s: seq<Triangle>)
    reads cam
  {
    forall k :: 0 <= k < |s| ==> Drawable(cam, trig, s[k])
  }

  /** The polygons for a list of drawable triangles, one per triangle. */
  function Commands(cam: Camera, trig: Trig, s: seq<Triangle>): (r: seq<Polygon>)
    reads cam
    requires AllDrawable(cam, trig, s)
    ensures |r| == |s|
  {
    if s == [] then [] else [Command(cam, trig, s[0])] + Commands(cam, trig, s[1..])
  }

  /** Polygon `k` is the polygon of triangle `k`: the list keeps the order. */
  lemma {:induction false} CommandsAt(cam: Camera, trig: Trig, s: seq<Triangle>, k: nat)
    requires AllDrawable(cam, trig, s) && k < |s|
    ensures Drawable(cam, trig, s[k])
    ensures Commands(cam, trig, s)[k] == Command(cam, trig, s[k])
  {
    if k > 0 {
      CommandsAt(cam, trig, s[1..], k - 1);
    }
  }

  /** Painting one more drawable triangle appends its polygon. */
  lemma {:induction false} CommandsAppend(cam: Camera, trig: Trig, s: seq<Triangle>, t: Triangle)
    requires AllDrawable(cam, trig, s) && Drawable(cam, trig, t)
    ensures AllDrawable(cam, trig, s + [t])
    ensures Commands(cam, trig, s + [t]) == Commands(cam, trig, s) + [Command(cam, trig, t)]
  {
    if s != [] {
      assert (s + [t])[1..] == s[1..] + [t];
      CommandsAppend(cam, trig, s[1..], t);
    }
  }

  /** How many triangles at the front of `s` can be painted before the first
      one whose projection divides by zero. */
  function DrawablePrefix(cam: Camera, trig: Trig, s: seq<Triangle>): (n: nat)
    reads cam
    ensures n <= |s|
    ensures AllDrawable(cam, trig, s[..n])
    ensures n < |s| ==> !Drawable(cam, trig, s[n])
  {
    if s == [] || !Drawable(cam, trig, s[0]) then 0
    else
      var m := DrawablePrefix(cam, trig, s[1..]);
      assert s[..m + 1] == [s[0]] + s[1..][..m];
      m + 1
  }

  /** The prefix length is the only one with those two properties. */
  lemma DrawablePrefixUnique(cam: Camera, trig: Trig, s: seq<Triangle>, k: nat)
    requires k <= |s|
    requires AllDrawable(cam, trig, s[..k])
    requires k < |s| ==> !Drawable(cam, trig, s[k])
    ensures DrawablePrefix(cam, trig, s) == k
  {
    var n := DrawablePrefix(cam, trig, s);
    if n < k {
      assert false;
    } else if k < n {
      assert false;
    }
  }

  /** The canvas after `draw`: the stable far-to-near order of the mesh,
      painted until the first triangle that cannot be projected. */
  function Render(cam: Camera, trig: Trig, strip: seq<Triangle>): (f: Frame)
    reads cam
    ensures |f.polygons| <= |strip|
  {
    var sorted := SortByKey(strip);
    var n := DrawablePrefix(cam, trig, sorted);
    assert |sorted| == |multiset(sorted)| == |strip|;
    Frame(Commands(cam, trig, sorted[..n]), n < |sorted|)
  }

  /** A pass that paints the first `k` triangles of the far-to-near order and
      stops at the first undrawable one (or at the end) is the pass `Render`
      describes. */
  lemma RenderStopsAt(cam: Camera, trig: Trig, strip: seq<Triangle>, k: nat)
    requires k <= |SortByKey(strip)|
    requires AllDrawable(cam, trig, SortByKey(strip)[..k])
    requires k < |SortByKey(strip)| ==> !Drawable(cam, trig, SortByKey(strip)[k])
    ensures Render(cam, trig, strip) == Frame(Commands(cam, trig, SortByKey(strip)[..k]), k < |SortByKey(strip)|)
  {
    DrawablePrefixUnique(cam, trig, SortByKey(strip), k);
  }

  /** One iteration of the loop in `draw`: the shaded fill, then the screen
      points; `ok` is false when a projection divides by zero. */
  method PaintTriangle(cam: Camera, trig: Trig, tri: Triangle) returns (polygon: Polygon, ok: bool)
    ensures ok <==> Drawable(cam, trig, tri)
    ensures ok ==> polygon == Command(cam, trig, tri)
  {
    var intensity := Shade(cam, tri);
    var color := ColourOf(intensity);
    var points;
    points, ok := PolygonPoints(cam, trig, tri);
    polygon := Polygon(points, color);
  }

  lemma TakeOneMore<T>(s: seq<T>, k: nat)
    requires k < |s|
    ensures s[..k + 1] == s[..k] + [s[k]]
  {
  }

  /** `draw`: the canvas is cleared and repainted from the current mesh and camera. */
  method DrawPass(cam: Camera, trig: Trig, strip: seq<Triangle>) returns (frame: Frame)
    ensures frame == Render(cam, trig, strip)
  {
    var sorted := SortByKey(strip);
    var polygons: seq<Polygon> := [];
    var aborted := false;
    var k := 0;
    while k < |sorted|
      invariant 0 <= k <= |sorted|
      invariant AllDrawable(cam, trig, sorted[..k])
      invariant polygons == Commands(cam, trig, sorted[..k])
    {
      var tri := sorted[k];
      var polygon, ok := PaintTriangle(cam, trig, tri);
      if !ok {
        // The `ZeroDivisionError` leaves the loop.
        aborted := true;
        break;
      }
      TakeOneMore(sorted, k);
      CommandsAppend(cam, trig, sorted[..k], tri);
      polygons := polygons + [polygon];
      k := k + 1;
    }
    RenderStopsAt(cam, trig, strip, k);
    frame := Frame(polygons, aborted);
  }

  /** The pass stops early exactly when some triangle of the mesh has a vertex
      whose projection divides by zero. */
  lemma RenderAborts(cam: Camera, trig: Trig, strip: seq<Triangle>)
    ensures Render(cam, trig, strip).aborted <==> exists k :: 0 <= k < |strip| && !Drawable(cam, trig, strip[k])
  {
    var sorted := SortByKey(strip);
    var n := DrawablePrefix(cam, trig, sorted);
    if n < |sorted| {
      assert sorted[n] in multiset(sorted);
      assert sorted[n] in multiset(strip);
      var k :| 0 <= k < |strip| && strip[k] == sorted[n];
    } else {
      assert sorted[..n] == sorted;
      forall k | 0 <= k < |strip|
        ensures Drawable(cam, trig, strip[k])
      {
        assert strip[k] in multiset(strip);
        assert strip[k] in multiset(sorted);
        var j :| 0 <= j < |sorted| && sorted[j] == strip[k];
      }
    }
  }

  /** Polygon `a` of the canvas is the polygon of the `a`-th triangle of the
      stable far-to-near order. */
  lemma RenderAt(cam: Camera, trig: Trig, strip: seq<Triangle>, a: nat)
    requires a < |Render(cam, trig, strip).polygons|
    ensures a < |SortByKey(strip)|
    ensures Drawable(cam, trig, SortByKey(strip)[a])
    ensures Render(cam, trig, strip).polygons[a] == Command(cam, trig, SortByKey(strip)[a])
  {
    var sorted := SortByKey(strip);
    var n := DrawablePrefix(cam, trig, sorted);
    CommandsAt(cam, trig, sorted[..n], a);
  }

  /** When every triangle can be projected, each one is painted exactly once,
      in the painter's order: far (large z) first, mesh order among equal depths. */
  lemma RenderComplete(cam: Camera, trig: Trig, strip: seq<Triangle>)
    requires AllDrawable(cam, trig, strip)
    ensures !Render(cam, trig, strip).aborted
    ensures |Render(cam, trig, strip).polygons| == |strip|
    ensures forall k :: 0 <= k < |strip| ==>
              Drawable(cam, trig, SortByKey(strip)[k]) &&
              Render(cam, trig, strip).polygons[k] == Command(cam, trig, SortByKey(strip)[k])
  {
    RenderAborts(cam, trig, strip);
    var sorted := SortByKey(strip);
    var n := DrawablePrefix(cam, trig, sorted);
    assert |sorted| == |multiset(sorted)| == |strip|;
    assert n == |sorted|;
    forall k | 0 <= k < |strip|
      ensures Drawable(cam, trig, sorted[k])
      ensures Render(cam, trig, strip).polygons[k] == Command(cam, trig, sorted[k])
    {
      RenderAt(cam, trig, strip, k);
    }
  }

  /** Whatever is painted is painted in the depth order: an earlier polygon's
      triangle is never nearer (smaller centre z) than a later one's. */
  lemma RenderOrder(cam: Camera, trig: Trig, strip: seq<Triangle>, a: nat, b: nat)
    requires a < b < |Render(cam, trig, strip).polygons|
    ensures b < |SortByKey(strip)|
    ensures SortByKey(strip)[a].Center().z >= SortByKey(strip)[b].Center().z
  {
    RenderAt(cam, trig, strip, b);
    DrawOrder(strip);
  }
}
