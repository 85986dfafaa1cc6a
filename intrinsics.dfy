/**
 * CameraIntrinsics: the resolved camera model, its two initialisers and its
 * local-to-pixel projection; and the partial, optional-valued intrinsics
 * that frames and the descriptor may carry.
 */
module Intrinsics {
  import opened Wrappers
  import opened Matrix
  import opened Errors

  /** The eleven intrinsic fields, in the order in which they are resolved. */
  datatype Field = W | H | Fx | Fy | Cx | Cy | K1 | K2 | K3 | P1 | P2

  const FieldOrder: seq<Field> := [W, H, Fx, Fy, Cx, Cy, K1, K2, K3, P1, P2]

  lemma FieldOrderComplete(f: Field)
    ensures f in FieldOrder
  {
  }

  /** The name a missing field is reported under. */
  function FieldName(f: Field): string {
    match f
    case W => "w"
    case H => "h"
    case Fx => "fx"
    case Fy => "fy"
    case Cx => "cx"
    case Cy => "cy"
    case K1 => "k1"
    case K2 => "k2"
    case K3 => "k3"
    case P1 => "p1"
    case P2 => "p2"
  }

  /** A complete camera model; its memberwise initialiser is the datatype constructor. */
  datatype CameraIntrinsics = CameraIntrinsics(
    w: real, h: real, fx: real, fy: real, cx: real, cy: real,
    k1: real, k2: real, k3: real, p1: real, p2: real)
  {
    function Get(f: Field): real {
      match f
      case W => w
      case H => h
      case Fx => fx
      case Fy => fy
      case Cx => cx
      case Cy => cy
      case K1 => k1
      case K2 => k2
      case K3 => k3
      case P1 => p1
      case P2 => p2
    }
  }

  /** True when all five distortion terms are zero. */
  predicate Undistorted(k: CameraIntrinsics) {
    k.k1 == 0.0 && k.k2 == 0.0 && k.k3 == 0.0 && k.p1 == 0.0 && k.p2 == 0.0
  }

  /**
   * `init(imageWidth:imageHeight:)`: focal lengths equal to the image size,
   * principal point in the middle of the image, no distortion.
   */
  function FromImageSize(imageWidth: int, imageHeight: int): (k: CameraIntrinsics)
    ensures k.w == imageWidth as real && k.h == imageHeight as real
    ensures k.fx == k.w && k.fy == k.h
    ensures 2.0 * k.cx == k.w && 2.0 * k.cy == k.h
    ensures Undistorted(k)
  {
    var w := imageWidth as real;
    var h := imageHeight as real;
    CameraIntrinsics(w, h, w, h, w / 2.0, h / 2.0, 0.0, 0.0, 0.0, 0.0, 0.0)
  }

  const ZMin: real := 0.0
  const ZScale: real := 1.0

  /**
   * `localToPixelTransform`: columns (fx,0,0,0), (0,fy,0,0), (cx,cy,zscale,0)
   * and (0,0,zmin,1).
   */
  function LocalToPixel(k: CameraIntrinsics): Mat4 {
    Mat4(Vec4(k.fx, 0.0, 0.0, 0.0),
         Vec4(0.0, k.fy, 0.0, 0.0),
         Vec4(k.cx, k.cy, ZScale, 0.0),
         Vec4(0.0, 0.0, ZMin, 1.0))
  }

  /**
   * The transform is a pinhole projection: a camera-space point (x, y, z)
   * goes to (fx x + cx z, fy y + cy z, z, 1), which after division by its
   * depth is the pixel (fx x / z + cx, fy y / z + cy).
   */
  lemma LocalToPixelProjects(k: CameraIntrinsics, x: real, y: real, z: real)
    ensures MulVec(LocalToPixel(k), Vec4(x, y, z, 1.0))
         == Vec4(k.fx * x + k.cx * z, k.fy * y + k.cy * z, z, 1.0)
    ensures z != 0.0 ==>
      var p := MulVec(LocalToPixel(k), Vec4(x, y, z, 1.0));
      p.x / p.z == k.fx * (x / z) + k.cx && p.y / p.z == k.fy * (y / z) + k.cy
  {
    var p := MulVec(LocalToPixel(k), Vec4(x, y, z, 1.0));
    assert p.x == k.fx * x + k.cx * z;
    assert p.y == k.fy * y + k.cy * z;
    if z != 0.0 {
      assert (k.fx * x + k.cx * z) / z == k.fx * (x / z) + k.cx;
      assert (k.fy * y + k.cy * z) / z == k.fy * (y / z) + k.cy;
    }
  }

  /**
   * With the image-size intrinsics, the point (x, y) at depth 1 lands on the
   * pixel (w (x + 1/2), h (y + 1/2)): the optical axis hits the image centre
   * and the unit square around it spans the whole image.
   */
  lemma ImageSizeProjection(imageWidth: int, imageHeight: int, x: real, y: real)
    ensures MulVec(LocalToPixel(FromImageSize(imageWidth, imageHeight)), Vec4(x, y, 1.0, 1.0))
         == Vec4(imageWidth as real * (x + 0.5), imageHeight as real * (y + 0.5), 1.0, 1.0)
  {
    var k := FromImageSize(imageWidth, imageHeight);
    LocalToPixelProjects(k, x, y, 1.0);
    assert k.fx * x + k.cx * 1.0 == imageWidth as real * (x + 0.5);
    assert k.fy * y + k.cy * 1.0 == imageHeight as real * (y + 0.5);
  }

  /**
   * Intrinsics that may each be absent: the optional fields of a frame or of
   * the descriptor. The focal lengths are stored as `fl_x` / `fl_y` and read
   * back as `fx` / `fy`.
   */
  datatype PartialIntrinsics = PartialIntrinsics(
    w: Option<real>, h: Option<real>, fl_x: Option<real>, fl_y: Option<real>,
    cx: Option<real>, cy: Option<real>,
    k1: Option<real>, k2: Option<real>, k3: Option<real>, p1: Option<real>, p2: Option<real>)
  {
    function fx(): Option<real> { fl_x }
    function fy(): Option<real> { fl_y }

    function Get(f: Field): Option<real> {
      match f
      case W => w
      case H => h
      case Fx => fx()
      case Fy => fy()
      case Cx => cx
      case Cy => cy
      case K1 => k1
      case K2 => k2
      case K3 => k3
      case P1 => p1
      case P2 => p2
    }
  }

  /** No field present. */
  const Absent: PartialIntrinsics :=
    PartialIntrinsics(None, None, None, None, None, None, None, None, None, None, None)

  /** Every field present, holding the values of k (fx and fy stored as fl_x, fl_y). */
  function Present(k: CameraIntrinsics): (p: PartialIntrinsics)
    ensures forall f: Field :: p.Get(f) == Some(k.Get(f))
  {
    PartialIntrinsics(Some(k.w), Some(k.h), Some(k.fx), Some(k.fy), Some(k.cx), Some(k.cy),
                      Some(k.k1), Some(k.k2), Some(k.k3), Some(k.p1), Some(k.p2))
  }

  /** The nested `getValue`: the value when present, otherwise "Missing <context>". */
  function GetValue(v: Option<real>, context: string): Result<real, Error> {
    if v.Some? then Success(v.value) else Failure(NerfDataError("Missing " + context))
  }
}
