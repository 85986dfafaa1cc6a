/**
 * The scene descriptor: NerfStudioFrame (a pose stored as rows of floats plus
 * optional intrinsics) and NerfStudioTransforms (the frames, the point file
 * name and optional global intrinsics), with the pose accessors, the frame
 * initialiser, intrinsics resolution and pose alignment.
 */
module Frames {
  import opened Wrappers
  import opened Matrix
  import opened Errors
  import opened Intrinsics

  datatype NerfStudioFrame = NerfStudioFrame(
    file_path: string,
    transform_matrix: seq<seq<real>>,
    intrinsics: PartialIntrinsics)

  /**
   * What the `localToWorld` getter needs to not trap: rows 0 to 3 exist and
   * each has exactly four entries (`simd_float4([Float])` traps otherwise).
   */
  predicate PoseShaped(rows: seq<seq<real>>) {
    |rows| >= 4 && forall i | 0 <= i < 4 :: |rows[i]| == 4
  }

  /** The `localToWorld` getter: `transform_matrix[i]` is row i of the pose. */
  function LocalToWorld(f: NerfStudioFrame): (m: Mat4)
    requires PoseShaped(f.transform_matrix)
    ensures forall i, j | 0 <= i < 4 && 0 <= j < 4 :: m.At(i, j) == f.transform_matrix[i][j]
  {
    var rows := f.transform_matrix;
    var m := FromRows(FromArray(rows[0]), FromArray(rows[1]), FromArray(rows[2]), FromArray(rows[3]));
    assert forall i, j | 0 <= i < 4 && 0 <= j < 4 :: m.At(i, j) == m.Row(i).At(j);
    m
  }

  /**
   * What the `localToWorld` setter stores: the columns of the transposed
   * pose, i.e. the pose's rows, as four arrays of four.
   */
  function PoseRows(m: Mat4): (rows: seq<seq<real>>)
    ensures |rows| == 4
    ensures forall i | 0 <= i < 4 :: |rows[i]| == 4
    ensures forall i, j | 0 <= i < 4 && 0 <= j < 4 :: rows[i][j] == m.At(i, j)
  {
    var rowMajor := Transpose(m);
    var rows := [rowMajor.c0.ToArray(), rowMajor.c1.ToArray(), rowMajor.c2.ToArray(), rowMajor.c3.ToArray()];
    assert forall i | 0 <= i < 4 :: rows[i] == rowMajor.Col(i).ToArray();
    rows
  }

  /** The `localToWorld` setter: overwrites `transform_matrix`, nothing else. */
  function SetLocalToWorld(f: NerfStudioFrame, m: Mat4): NerfStudioFrame {
    f.(transform_matrix := PoseRows(m))
  }

  /** Reading the pose back after setting it gives the pose that was set. */
  lemma PoseRoundTrip(f: NerfStudioFrame, m: Mat4)
    ensures PoseShaped(SetLocalToWorld(f, m).transform_matrix)
    ensures LocalToWorld(SetLocalToWorld(f, m)) == m
    ensures SetLocalToWorld(f, m).file_path == f.file_path
    ensures SetLocalToWorld(f, m).intrinsics == f.intrinsics
  {
    var g := SetLocalToWorld(f, m);
    var n := LocalToWorld(g);
    assert forall i, j | 0 <= i < 4 && 0 <= j < 4 :: n.At(i, j) == m.At(i, j);
    MatrixExtensional(n, m);
  }

  /** Setting the pose that was read back stores exactly the rows that were there. */
  lemma StoredPoseRoundTrip(f: NerfStudioFrame)
    requires PoseShaped(f.transform_matrix) && |f.transform_matrix| == 4
    ensures SetLocalToWorld(f, LocalToWorld(f)) == f
  {
    var rows := PoseRows(LocalToWorld(f));
    forall i | 0 <= i < 4 ensures rows[i] == f.transform_matrix[i] {
    }
  }

  /** Two poses with the same sixteen entries are the same pose. */
  lemma MatrixExtensional(a: Mat4, b: Mat4)
    requires forall i, j | 0 <= i < 4 && 0 <= j < 4 :: a.At(i, j) == b.At(i, j)
    ensures a == b
  {
    forall j | 0 <= j < 4 ensures a.Col(j) == b.Col(j) {
      assert a.At(0, j) == b.At(0, j) && a.At(1, j) == b.At(1, j) && a.At(2, j) == b.At(2, j) && a.At(3, j) == b.At(3, j);
    }
    assert a.Col(0) == b.Col(0) && a.Col(1) == b.Col(1) && a.Col(2) == b.Col(2) && a.Col(3) == b.Col(3);
  }

  /**
   * `init(file_path:localToWorld:intrinsics:)`: starts from an empty
   * `transform_matrix`, sets the pose through the setter and copies every
   * intrinsic, fx and fy into fl_x and fl_y.
   */
  function NewFrame(file_path: string, localToWorld: Mat4, intrinsics: CameraIntrinsics): (f: NerfStudioFrame)
    ensures f.file_path == file_path
    ensures f.transform_matrix == PoseRows(localToWorld)
    ensures PoseShaped(f.transform_matrix) && LocalToWorld(f) == localToWorld
    ensures forall g: Field :: f.intrinsics.Get(g) == Some(intrinsics.Get(g))
  {
    var empty := NerfStudioFrame(file_path, [], Present(intrinsics));
    PoseRoundTrip(empty, localToWorld);
    SetLocalToWorld(empty, localToWorld)
  }

  datatype NerfStudioTransforms = NerfStudioTransforms(
    camera_model: string,
    frames: seq<NerfStudioFrame>,
    ply_file_path: Option<string>,
    intrinsics: PartialIntrinsics)

  /** `init(camera_model:frames:ply_file_path:)`: no global intrinsics. */
  function NewTransforms(camera_model: string, frames: seq<NerfStudioFrame>, ply_file_path: Option<string>)
    : (t: NerfStudioTransforms)
    ensures t.camera_model == camera_model && t.frames == frames && t.ply_file_path == ply_file_path
    ensures forall f: Field :: t.intrinsics.Get(f).None?
  {
    NerfStudioTransforms(camera_model, frames, ply_file_path, Absent)
  }

  /** Field f of a frame, falling back to the descriptor's global value (`frame.f ?? f`). */
  function Resolved(t: NerfStudioTransforms, frame: NerfStudioFrame, f: Field): Option<real> {
    frame.intrinsics.Get(f).Or(t.intrinsics.Get(f))
  }

  /** Field `FieldOrder[i]` is the first one that resolves to nothing. */
  ghost predicate FirstMissing(t: NerfStudioTransforms, frame: NerfStudioFrame, i: int) {
    && 0 <= i < |FieldOrder|
    && Resolved(t, frame, FieldOrder[i]).None?
    && forall j | 0 <= j < i :: Resolved(t, frame, FieldOrder[j]).Some?
  }

  /**
   * `GetCameraIntrinsics(frame:)`: each field, in the order w, h, fx, fy, cx,
   * cy, k1, k2, k3, p1, p2, is the frame's value or else the global value,
   * and the first field with neither throws "Missing <field>".
   */
  function GetCameraIntrinsics(t: NerfStudioTransforms, frame: NerfStudioFrame): Result<CameraIntrinsics, Error> {
    var p, g := frame.intrinsics, t.intrinsics;
    var w :- GetValue(p.w.Or(g.w), "w");
    var h :- GetValue(p.h.Or(g.h), "h");
    var fx :- GetValue(p.fx().Or(g.fx()), "fx");
    var fy :- GetValue(p.fy().Or(g.fy()), "fy");
    var cx :- GetValue(p.cx.Or(g.cx), "cx");
    var cy :- GetValue(p.cy.Or(g.cy), "cy");
    var k1 :- GetValue(p.k1.Or(g.k1), "k1");
    var k2 :- GetValue(p.k2.Or(g.k2), "k2");
    var k3 :- GetValue(p.k3.Or(g.k3), "k3");
    var p1 :- GetValue(p.p1.Or(g.p1), "p1");
    var p2 :- GetValue(p.p2.Or(g.p2), "p2");
    Success(CameraIntrinsics(w, h, fx, fy, cx, cy, k1, k2, k3, p1, p2))
  }

  /**
   * Resolution succeeds exactly when every field is present in the frame or
   * globally, and then each resolved field is the frame's value if present,
   * else the global one.
   */
  lemma ResolutionPrecedence(t: NerfStudioTransforms, frame: NerfStudioFrame)
    ensures GetCameraIntrinsics(t, frame).Success? <==> forall f: Field :: Resolved(t, frame, f).Some?
    ensures GetCameraIntrinsics(t, frame).Success? ==>
      forall f: Field :: Resolved(t, frame, f) == Some(GetCameraIntrinsics(t, frame).value.Get(f))
  {
    var r := GetCameraIntrinsics(t, frame);
    if forall f: Field :: Resolved(t, frame, f).Some? {
      assert Resolved(t, frame, W).Some? && Resolved(t, frame, H).Some?;
      assert Resolved(t, frame, Fx).Some? && Resolved(t, frame, Fy).Some?;
      assert Resolved(t, frame, Cx).Some? && Resolved(t, frame, Cy).Some?;
      assert Resolved(t, frame, K1).Some? && Resolved(t, frame, K2).Some? && Resolved(t, frame, K3).Some?;
      assert Resolved(t, frame, P1).Some? && Resolved(t, frame, P2).Some?;
      assert r.Success?;
      forall f: Field ensures Resolved(t, frame, f) == Some(r.value.Get(f)) {
        match f
        case W => case H => case Fx => case Fy => case Cx => case Cy =>
        case K1 => case K2 => case K3 => case P1 => case P2 =>
      }
    } else {
      var f: Field :| Resolved(t, frame, f).None?;
      match f
      case W => case H => case Fx => case Fy => case Cx => case Cy =>
      case K1 => case K2 => case K3 => case P1 => case P2 =>
    }
  }

  /** Resolution throws for the first field that resolves to nothing, naming it. */
  lemma FailsAtFirstMissing(t: NerfStudioTransforms, frame: NerfStudioFrame, i: int)
    requires FirstMissing(t, frame, i)
    ensures GetCameraIntrinsics(t, frame) == Failure(NerfDataError("Missing " + FieldName(FieldOrder[i])))
  {
    assert FieldOrder[0] == W && FieldOrder[1] == H && FieldOrder[2] == Fx && FieldOrder[3] == Fy;
    assert FieldOrder[4] == Cx && FieldOrder[5] == Cy && FieldOrder[6] == K1 && FieldOrder[7] == K2;
    assert FieldOrder[8] == K3 && FieldOrder[9] == P1 && FieldOrder[10] == P2;
    match FieldOrder[i]
    case W => case H => case Fx => case Fy => case Cx => case Cy =>
    case K1 => case K2 => case K3 => case P1 => case P2 =>
  }

  /**
   * When resolution fails, it names the first field, in resolution order,
   * that is absent from both the frame and the descriptor.
   */
  lemma ResolutionFailsAtFirstMissing(t: NerfStudioTransforms, frame: NerfStudioFrame)
    ensures GetCameraIntrinsics(t, frame).Failure? ==>
      exists i :: FirstMissing(t, frame, i)
        && GetCameraIntrinsics(t, frame).error == NerfDataError("Missing " + FieldName(FieldOrder[i]))
  {
    var i := 0;
    while i < |FieldOrder| && Resolved(t, frame, FieldOrder[i]).Some?
      invariant 0 <= i <= |FieldOrder|
      invariant forall j | 0 <= j < i :: Resolved(t, frame, FieldOrder[j]).Some?
    {
      i := i + 1;
    }
    if i < |FieldOrder| {
      FailsAtFirstMissing(t, frame, i);
    } else {
      ResolutionPrecedence(t, frame);
      forall f: Field ensures Resolved(t, frame, f).Some? {
        FieldOrderComplete(f);
      }
    }
  }

  /**
   * A frame built from complete intrinsics resolves to exactly those
   * intrinsics, whatever the descriptor's global values are.
   */
  lemma NewFrameResolves(t: NerfStudioTransforms, file_path: string, localToWorld: Mat4, k: CameraIntrinsics)
    ensures GetCameraIntrinsics(t, NewFrame(file_path, localToWorld, k)) == Success(k)
    ensures LocalToWorld(NewFrame(file_path, localToWorld, k)) == localToWorld
    ensures NewFrame(file_path, localToWorld, k).file_path == file_path
  {
    PoseRoundTrip(NerfStudioFrame(file_path, [], Present(k)), localToWorld);
  }

  /** With the initialiser's empty global block, only the frame's own fields count. */
  lemma NewTransformsResolvesFromFrame(camera_model: string, frames: seq<NerfStudioFrame>,
                                       ply_file_path: Option<string>, frame: NerfStudioFrame, f: Field)
    ensures Resolved(NewTransforms(camera_model, frames, ply_file_path), frame, f) == frame.intrinsics.Get(f)
  {
  }

  predicate AllPosesShaped(frames: seq<NerfStudioFrame>) {
    forall i | 0 <= i < |frames| :: PoseShaped(frames[i].transform_matrix)
  }

  /** One frame after alignment: `frame.localToWorld = applyTransform * frame.localToWorld`. */
  function Align(applyTransform: Mat4, frame: NerfStudioFrame): NerfStudioFrame
    requires PoseShaped(frame.transform_matrix)
  {
    SetLocalToWorld(frame, Mul(applyTransform, LocalToWorld(frame)))
  }

  /** Every frame aligned, in order. */
  function AlignAll(applyTransform: Mat4, frames: seq<NerfStudioFrame>): seq<NerfStudioFrame>
    requires AllPosesShaped(frames)
  {
    seq(|frames|, i requires 0 <= i < |frames| => Align(applyTransform, frames[i]))
  }

  /**
   * Alignment keeps the number and order of frames, each frame's image path
   * and intrinsics, and replaces each pose by `applyTransform * pose`.
   */
  lemma AlignedFrames(applyTransform: Mat4, frames: seq<NerfStudioFrame>)
    requires AllPosesShaped(frames)
    ensures |AlignAll(applyTransform, frames)| == |frames|
    ensures AllPosesShaped(AlignAll(applyTransform, frames))
    ensures forall i | 0 <= i < |frames| ::
      && AlignAll(applyTransform, frames)[i].file_path == frames[i].file_path
      && AlignAll(applyTransform, frames)[i].intrinsics == frames[i].intrinsics
      && LocalToWorld(AlignAll(applyTransform, frames)[i]) == Mul(applyTransform, LocalToWorld(frames[i]))
  {
    var aligned := AlignAll(applyTransform, frames);
    forall i | 0 <= i < |frames|
      ensures PoseShaped(aligned[i].transform_matrix)
      ensures LocalToWorld(aligned[i]) == Mul(applyTransform, LocalToWorld(frames[i]))
    {
      PoseRoundTrip(frames[i], Mul(applyTransform, LocalToWorld(frames[i])));
    }
  }

  /** Aligning with the identity leaves every pose as it was. */
  lemma AlignIdentity(frames: seq<NerfStudioFrame>)
    requires AllPosesShaped(frames)
    ensures forall i | 0 <= i < |frames| :: LocalToWorld(AlignAll(Identity, frames)[i]) == LocalToWorld(frames[i])
  {
    AlignedFrames(Identity, frames);
    forall i | 0 <= i < |frames| ensures Mul(Identity, LocalToWorld(frames[i])) == LocalToWorld(frames[i]) {
      IdentityNeutral(LocalToWorld(frames[i]));
    }
  }

  /** Aligning by a, then by b, is aligning once by b * a. */
  lemma AlignCompose(a: Mat4, b: Mat4, frames: seq<NerfStudioFrame>)
    requires AllPosesShaped(frames)
    ensures AllPosesShaped(AlignAll(a, frames))
    ensures AlignAll(b, AlignAll(a, frames)) == AlignAll(Mul(b, a), frames)
  {
    AlignedFrames(a, frames);
    var once := AlignAll(a, frames);
    forall i | 0 <= i < |frames| ensures Align(b, once[i]) == Align(Mul(b, a), frames[i]) {
      MulAssociative(b, a, LocalToWorld(frames[i]));
    }
  }

  /** Alignment does not change what any frame's intrinsics resolve to. */
  lemma AlignKeepsIntrinsics(t: NerfStudioTransforms, applyTransform: Mat4, frames: seq<NerfStudioFrame>, i: int)
    requires AllPosesShaped(frames) && 0 <= i < |frames|
    ensures GetCameraIntrinsics(t, AlignAll(applyTransform, frames)[i]) == GetCameraIntrinsics(t, frames[i])
  {
    assert AlignAll(applyTransform, frames)[i].intrinsics == frames[i].intrinsics;
  }
}
