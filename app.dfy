/** The application object `MobiusApp`: the surface parameters the sliders
    set, the current mesh, the camera, and what the canvas shows. */
module App {
  import opened Geometry
  import opened CameraModel
  import opened Mesh
  import opened Colour
  import opened Painter

  class MobiusApp {
    /** `math.pi`, `math.sin`, `math.cos`, fixed for the whole run. */
    const trig: Trig
    var radius: real
    var twist: real
    var uSteps: nat
    var vSteps: nat
    /** The mesh of the last `update_strip`; the setters do not rebuild it. */
    var strip: seq<Triangle>
    const camera: Camera
    /** The canvas contents after the last `draw`. */
    var frame: Frame

    /** The canvas always shows the current mesh from the current camera. */
    predicate Shown()
      reads this, camera
    {
      frame == Render(camera, trig, strip)
    }

    /** `__init__`: the default surface (radius 1, twist 0.5, 10 by 5 cells),
        a camera at distance 5 and angle 0, and the first mesh drawn. */
    constructor (trig: Trig)
      ensures this.trig == trig
      ensures radius == 1.0 && twist == 0.5 && uSteps == 10 && vSteps == 5
      ensures fresh(camera) && camera.dist == 5.0 && camera.angle == 0.0
      ensures camera.lightPos == Point3D(5.0, 5.0, 5.0)
      ensures strip == MobiusMesh(Shape(radius, twist, uSteps, vSteps), trig) && |strip| == 100
      ensures Shown()
    {
      this.trig := trig;
      radius := 1.0;
      twist := 0.5;
      uSteps := 10;
      vSteps := 5;
      var cam := new Camera(5.0);
      camera := cam;
      // `update_strip()`: build the mesh, then draw it.
      var mesh := CreateMobiusStrip(1.0, 0.5, 10, 5, trig);
      var shown := DrawPass(cam, trig, mesh);
      strip := mesh;
      frame := shown;
    }

    /** `set_radius`, from the slider value already read as a number. */
    method SetRadius(val: real)
      modifies this`radius
      ensures radius == val
    {
      radius := val;
    }

    /** `set_twist`, from the slider value already read as a number. */
    method SetTwist(val: real)
      modifies this`twist
      ensures twist == val
    {
      twist := val;
    }

    /** `set_u_steps`: `int(float(val))` truncates the slider value. */
    method SetUSteps(val: real)
      requires 0.0 <= val
      modifies this`uSteps
      ensures uSteps as real <= val < uSteps as real + 1.0
    {
      uSteps := Trunc(val);
    }

    /** `set_v_steps`: `int(float(val))` truncates the slider value. */
    method SetVSteps(val: real)
      requires 0.0 <= val
      modifies this`vSteps
      ensures vSteps as real <= val < vSteps as real + 1.0
    {
      vSteps := Trunc(val);
    }

    /** `update_strip`: rebuild the mesh from the current parameters and redraw. */
    method UpdateStrip()
      modifies this`strip, this`frame
      ensures strip == MobiusMesh(Shape(radius, twist, uSteps, vSteps), trig)
      ensures |strip| == 2 * uSteps * vSteps
      ensures Shown()
    {
      strip := CreateMobiusStrip(radius, twist, uSteps, vSteps, trig);
      Draw();
    }

    /** `rotate`: turn the camera by `delta` radians and redraw. The mesh is
        not rebuilt. */
    method Rotate(delta: real)
      modifies camera`angle, this`frame
      ensures camera.angle == old(camera.angle) + delta
      ensures Shown()
    {
      camera.angle := camera.angle + delta;
      Draw();
    }

    /** The Left arrow key. */
    method OnLeft()
      modifies camera`angle, this`frame
      ensures camera.angle == old(camera.angle) - 0.1
      ensures Shown()
    {
      Rotate(-0.1);
    }

    /** The Right arrow key. */
    method OnRight()
      modifies camera`angle, this`frame
      ensures camera.angle == old(camera.angle) + 0.1
      ensures Shown()
    {
      Rotate(0.1);
    }

    /** `draw`: clear the canvas and paint the current mesh. */
    method Draw()
      modifies this`frame
      ensures Shown()
    {
      frame := DrawPass(camera, trig, strip);
    }
  }
}
