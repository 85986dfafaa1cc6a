/**
 * NerfStudioData: loading a project directory. The descriptor's frame poses
 * are aligned in place by the caller's transform, then the point file the
 * descriptor names is read through a PlySink with the same transform.
 *
 * File access is a parameter: `decode` gives the decoded descriptor (or the
 * error reading or decoding it) at a path, `plyFiles` the records the PLY
 * reader delivers for a path.
 */
module Dataset {
  import opened Wrappers
  import opened Matrix
  import opened Errors
  import opened Frames
  import opened PointSink

  /**
   * What the PLY reader produces for a file: the records it delivers, in
   * file order, and the error it throws itself once they are delivered, if
   * any (unreadable file, malformed header or body).
   */
  datatype PlyStream = PlyStream(records: seq<PlyRecord>, failure: Option<string>)

  /** Reading a whole stream into a sink that applies applyTransform. */
  function ExtractPoints(stream: PlyStream, applyTransform: Option<Mat4>): Result<seq<Point>, Error> {
    var points :- ReadPoints(stream.records, applyTransform);
    if stream.failure.Some? then Failure(ForeignError(stream.failure.value)) else Success(points)
  }

  /** Swift's `hasSuffix`, on characters. */
  predicate HasSuffix(s: string, suffix: string)
    ensures HasSuffix(s, suffix) <==> exists prefix :: s == prefix + suffix
  {
    assert |suffix| <= |s| ==> s == s[..|s| - |suffix|] + s[|s| - |suffix|..];
    |suffix| <= |s| && s[|s| - |suffix|..] == suffix
  }

  const PlySuffix: string := ".ply"
  const NoPointFileMessage: string := "No point/ply/bin filename in meta"
  const UnsupportedPrefix: string := "Dont know how to load "

  function JsonPath(projectRoot: string): string {
    projectRoot + "/transforms.json"
  }

  function PointFilePath(projectRoot: string, pointFilename: string): string {
    projectRoot + "/" + pointFilename
  }

  /** The points `LoadPoints` yields, or the error it throws. */
  function PointsOf(projectRoot: string, plyFilePath: Option<string>, applyTransform: Mat4,
                    plyFiles: string -> PlyStream): Result<seq<Point>, Error>
  {
    match plyFilePath
    case None => Failure(NerfDataError(NoPointFileMessage))
    case Some(name) =>
      if HasSuffix(name, PlySuffix) then ExtractPoints(plyFiles(PointFilePath(projectRoot, name)), Some(applyTransform))
      else Failure(NerfDataError(UnsupportedPrefix + name))
  }

  /**
   * `LoadPoints(projectRoot:plyFilePath:applyTransform:)`: throws when no
   * point file is named or its name does not end in ".ply"; otherwise feeds
   * every record of the file to a fresh PlySink, stopping at the first throw,
   * and returns the sink's two buffers.
   */
  method LoadPoints(projectRoot: string, plyFilePath: Option<string>, applyTransform: Mat4,
                    plyFiles: string -> PlyStream)
    returns (r: Result<(seq<real>, seq<real>), Error>)
    ensures match PointsOf(projectRoot, plyFilePath, applyTransform, plyFiles)
      case Failure(e) => r == Failure(e)
      case Success(points) => r == Success((Xyzs(points), Rgbs(points)))
  {
    if plyFilePath.None? {
      return Failure(NerfDataError(NoPointFileMessage));
    }
    var pointFilename := plyFilePath.value;
    if !HasSuffix(pointFilename, PlySuffix) {
      return Failure(NerfDataError(UnsupportedPrefix + pointFilename));
    }
    var stream := plyFiles(PointFilePath(projectRoot, pointFilename));
    var sink := new PlySink(Some(applyTransform));
    var records := stream.records;
    var i := 0;
    while i < |records|
      invariant 0 <= i <= |records|
      invariant sink.Valid() && sink.applyTransform == Some(applyTransform)
      invariant ReadPoints(records[..i], Some(applyTransform)) == Success(sink.points)
    {
      var o := sink.DidRead(records[i]);
      assert records[..i + 1][..i] == records[..i];
      if o.Fail? {
        assert ReadPoints(records[..i + 1], Some(applyTransform)) == Failure(o.error);
        ReadPointsPrefixFailure(records, i + 1, Some(applyTransform));
        return Failure(o.error);
      }
      i := i + 1;
    }
    assert records[..i] == records;
    if stream.failure.Some? {
      return Failure(ForeignError(stream.failure.value));
    }
    r := Success((sink.xyzs, sink.rgbs));
  }

  /** Once a prefix of the records fails, reading the whole stream fails the same way. */
  lemma {:induction false} ReadPointsPrefixFailure(records: seq<PlyRecord>, n: nat, applyTransform: Option<Mat4>)
    requires n <= |records|
    requires ReadPoints(records[..n], applyTransform).Failure?
    ensures ReadPoints(records, applyTransform) == ReadPoints(records[..n], applyTransform)
    decreases |records| - n
  {
    if n < |records| {
      var longer := records[..n + 1];
      assert longer[..|longer| - 1] == records[..n];
      ReadPointsPrefixFailure(records, n + 1, applyTransform);
    } else {
      assert records[..n] == records;
    }
  }

  /**
   * Aligns every frame in place, in order: `frame.localToWorld =
   * applyTransform * frame.localToWorld` (the `mutateEach` of the loader).
   */
  method AlignFrames(frames: array<NerfStudioFrame>, applyTransform: Mat4)
    requires AllPosesShaped(frames[..])
    modifies frames
    ensures AllPosesShaped(old(frames[..]))
    ensures frames[..] == AlignAll(applyTransform, old(frames[..]))
  {
    ghost var original := frames[..];
    for i := 0 to frames.Length
      invariant forall k | 0 <= k < i :: frames[k] == Align(applyTransform, original[k])
      invariant forall k | i <= k < frames.Length :: frames[k] == original[k]
    {
      frames[i] := SetLocalToWorld(frames[i], Mul(applyTransform, LocalToWorld(frames[i])));
    }
    assert frames[..] == AlignAll(applyTransform, original);
  }

  /** The loaded dataset: the descriptor and the two flat point buffers. */
  datatype NerfStudioData = NerfStudioData(
    transforms: NerfStudioTransforms,
    pointsXyz: seq<real>,
    pointsRgb: seq<real>)
  {
    /** `pointCount`: three position values per point. */
    function PointCount(): (n: int)
      ensures 0 <= n && 3 * n <= |pointsXyz| < 3 * n + 3
    {
      |pointsXyz| / 3
    }
  }

  /**
   * `init(projectRoot:applyTransform:)`: decodes transforms.json, aligns
   * every frame pose by applyTransform, then loads the named point file with
   * the same transform; the first error thrown is the result.
   */
  method LoadNerfStudioData(projectRoot: string, applyTransform: Mat4,
                            decode: string -> Result<NerfStudioTransforms, Error>,
                            plyFiles: string -> PlyStream)
    returns (r: Result<NerfStudioData, Error>)
    requires decode(JsonPath(projectRoot)).Success? ==> AllPosesShaped(decode(JsonPath(projectRoot)).value.frames)
    ensures decode(JsonPath(projectRoot)).Failure? ==> r == Failure(decode(JsonPath(projectRoot)).error)
    ensures decode(JsonPath(projectRoot)).Success? ==>
      var descriptor := decode(JsonPath(projectRoot)).value;
      match PointsOf(projectRoot, descriptor.ply_file_path, applyTransform, plyFiles)
      case Failure(e) => r == Failure(e)
      case Success(points) =>
        r == Success(NerfStudioData(descriptor.(frames := AlignAll(applyTransform, descriptor.frames)),
                                    Xyzs(points), Rgbs(points)))
  {
    var transforms :- decode(JsonPath(projectRoot));
    var frames := new NerfStudioFrame[|transforms.frames|](i requires 0 <= i < |transforms.frames| => transforms.frames[i]);
    assert frames[..] == transforms.frames;
    AlignFrames(frames, applyTransform);
    transforms := transforms.(frames := frames[..]);
    var points :- LoadPoints(projectRoot, transforms.ply_file_path, applyTransform, plyFiles);
    r := Success(NerfStudioData(transforms, points.0, points.1));
  }

  /**
   * A dataset holding the buffers of n points has pointCount n, and its
   * position and colour buffers both hold 3n values.
   */
  lemma PointCountOfPoints(transforms: NerfStudioTransforms, points: seq<Point>)
    ensures var data := NerfStudioData(transforms, Xyzs(points), Rgbs(points));
      && data.PointCount() == |points|
      && |data.pointsXyz| == |data.pointsRgb| == 3 * data.PointCount()
  {
    FlatLayout(points);
  }

  /**
   * A successfully read point file yields one point per vertex record, so
   * the dataset's pointCount is the number of vertex records in the file.
   */
  lemma PointCountIsVertexCount(stream: PlyStream, applyTransform: Option<Mat4>)
    ensures ExtractPoints(stream, applyTransform).Success? ==>
      && stream.failure.None?
      && VerticesComplete(stream.records)
      && |ExtractPoints(stream, applyTransform).value| == |VertexRecords(stream.records)|
  {
    ReadPointsSpec(stream.records, applyTransform);
  }

  /** A point file with another extension is refused before anything is read. */
  lemma UnsupportedPointFile(projectRoot: string, applyTransform: Mat4, plyFiles: string -> PlyStream)
    ensures PointsOf(projectRoot, Some("cloud.xyz"), applyTransform, plyFiles)
         == Failure(NerfDataError("Dont know how to load cloud.xyz"))
  {
    assert !HasSuffix("cloud.xyz", PlySuffix) by {
      assert "cloud.xyz"[5..] != ".ply" by { assert "cloud.xyz"[5..][1] == 'x'; }
    }
    assert UnsupportedPrefix + "cloud.xyz" == "Dont know how to load cloud.xyz";
  }

  /** A vertex with stored float position and 8-bit colour. */
  function ExampleVertex(x: real, y: real, z: real, red: Byte, green: Byte, blue: Byte): PlyRecord {
    PlyRecord(VertexElement, map["x" := Scalar(x), "y" := Scalar(y), "z" := Scalar(z),
                                 "red" := UInt8(red), "green" := UInt8(green), "blue" := UInt8(blue)])
  }

  lemma ExampleVertexRead(x: real, y: real, z: real, red: Byte, green: Byte, blue: Byte)
    ensures ReadRecord(ExampleVertex(x, y, z, red, green, blue), Some(Identity))
         == Success(Some(Point(x, y, z, red as real / 255.0, green as real / 255.0, blue as real / 255.0)))
  {
    var v := ExampleVertex(x, y, z, red, green, blue);
    assert HasPointFields(v);
    PlaceIdentity(x, y, z);
  }

  /**
   * A point file holding a vertex, an element of another kind and a second
   * vertex, read with the default identity transform: two points in file
   * order, positions unchanged, 8-bit colours divided by 255.
   */
  lemma TwoVertexFile(projectRoot: string, other: PlyRecord,
                      x0: real, y0: real, z0: real, r0: Byte, g0: Byte, b0: Byte,
                      x1: real, y1: real, z1: real, r1: Byte, g1: Byte, b1: Byte)
    requires other.name != VertexElement
    ensures var records := [ExampleVertex(x0, y0, z0, r0, g0, b0), other, ExampleVertex(x1, y1, z1, r1, g1, b1)];
            PointsOf(projectRoot, Some("points.ply"), Identity, (path: string) => PlyStream(records, None))
              == Success([Point(x0, y0, z0, r0 as real / 255.0, g0 as real / 255.0, b0 as real / 255.0),
                          Point(x1, y1, z1, r1 as real / 255.0, g1 as real / 255.0, b1 as real / 255.0)])
  {
    var v0, v1 := ExampleVertex(x0, y0, z0, r0, g0, b0), ExampleVertex(x1, y1, z1, r1, g1, b1);
    var records := [v0, other, v1];
    var p0 := Point(x0, y0, z0, r0 as real / 255.0, g0 as real / 255.0, b0 as real / 255.0);
    var p1 := Point(x1, y1, z1, r1 as real / 255.0, g1 as real / 255.0, b1 as real / 255.0);
    assert HasSuffix("points.ply", PlySuffix);
    ExampleVertexRead(x0, y0, z0, r0, g0, b0);
    ExampleVertexRead(x1, y1, z1, r1, g1, b1);
    assert records[..1][..0] == [] && ReadPoints([], Some(Identity)) == Success([]);
    assert [] + [p0] == [p0];
    assert ReadPoints(records[..1], Some(Identity)) == Success([p0]);
    assert records[..2][..1] == records[..1];
    assert ReadPoints(records[..2], Some(Identity)) == Success([p0]);
    assert records[..2] == records[..|records| - 1] && records[|records| - 1] == v1;
    assert [p0] + [p1] == [p0, p1];
    assert ReadPoints(records, Some(Identity)) == Success([p0, p1]);
  }
}
