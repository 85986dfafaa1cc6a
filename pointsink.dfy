/**
 * PlySink: the PLY reader's delegate that collects the seed points. Each
 * vertex record contributes three position values to `xyzs` and three colour
 * values to `rgbs`; records of other elements are ignored.
 */
module PointSink {
  import opened Wrappers
  import opened Matrix
  import opened Errors

  type Byte = b: int | 0 <= b < 256

  /** A stored property value: an 8-bit integer or any other scalar. */
  datatype PlyScalar = UInt8(byte: Byte) | Scalar(value: real)

  /** `float32Value(forPropertyIndex:)`: the stored value as a float. */
  function Float32Value(v: PlyScalar): real {
    match v
    case UInt8(b) => b as real
    case Scalar(x) => x
  }

  /** `float32Value(forPropertyIndex:normalise8: 255)`: 8-bit values scaled into 0...1. */
  function Float32Normalised(v: PlyScalar): real {
    match v
    case UInt8(b) => b as real / 255.0
    case Scalar(x) => x
  }

  /** A stored 8-bit colour lands in 0...1, and 255 is full intensity. */
  lemma NormalisedByteInUnitRange(b: Byte)
    ensures 0.0 <= Float32Normalised(UInt8(b)) <= 1.0
    ensures Float32Normalised(UInt8(b)) == 1.0 <==> b == 255
  {
  }

  /**
   * One element delivered by the reader: the name of its element type and
   * its properties, looked up by name.
   */
  datatype PlyRecord = PlyRecord(name: string, properties: map<string, PlyScalar>)

  const VertexElement: string := "vertex"
  const MissingFieldsMessage: string := "Missing x/y/z/red/green/blue from seed points"

  predicate HasPointFields(rec: PlyRecord) {
    && "x" in rec.properties && "y" in rec.properties && "z" in rec.properties
    && "red" in rec.properties && "green" in rec.properties && "blue" in rec.properties
  }

  /** A seed point: position and colour. */
  datatype Point = Point(x: real, y: real, z: real, red: real, green: real, blue: real)

  /**
   * The optional transform of a position: (x, y, z, 1) is multiplied by the
   * matrix and the resulting x, y, z are multiplied (not divided) by the
   * resulting w. Without a transform the position passes through.
   */
  function Place(applyTransform: Option<Mat4>, x: real, y: real, z: real): (p: Vec4)
    ensures p.w == 1.0
  {
    match applyTransform
    case None => Vec4(x, y, z, 1.0)
    case Some(m) =>
      var xyzw := MulVec(m, Vec4(x, y, z, 1.0));
      Vec4(xyzw.x * xyzw.w, xyzw.y * xyzw.w, xyzw.z * xyzw.w, 1.0)
  }

  /** The identity transform, like no transform, leaves positions unchanged. */
  lemma PlaceIdentity(x: real, y: real, z: real)
    ensures Place(Some(Identity), x, y, z) == Place(None, x, y, z) == Vec4(x, y, z, 1.0)
  {
    IdentityNeutralVec(Vec4(x, y, z, 1.0));
  }

  /**
   * For an affine transform (last row 0, 0, 0, 1) the resulting w is 1, so
   * a point moves exactly as `m * (x, y, z, 1)`: the same map that aligns
   * the camera poses.
   */
  lemma PlaceAffine(m: Mat4, x: real, y: real, z: real)
    requires m.Row(3) == Vec4(0.0, 0.0, 0.0, 1.0)
    ensures Place(Some(m), x, y, z) == MulVec(m, Vec4(x, y, z, 1.0))
  {
    var xyzw := MulVec(m, Vec4(x, y, z, 1.0));
    MulVecAt(m, Vec4(x, y, z, 1.0), 3);
    assert xyzw.w == 1.0;
  }

  /**
   * For a last row (0, 0, 0, s) the resulting w is s, and x, y and z are
   * multiplied by it. Unless s is 1 or -1, this is not the perspective divide
   * by w: a coordinate that is not 0 comes out different.
   */
  lemma PlaceScaled(m: Mat4, s: real, x: real, y: real, z: real)
    requires m.Row(3) == Vec4(0.0, 0.0, 0.0, s)
    ensures var q := MulVec(m, Vec4(x, y, z, 1.0));
      Place(Some(m), x, y, z) == Vec4(q.x * s, q.y * s, q.z * s, 1.0)
    ensures var q := MulVec(m, Vec4(x, y, z, 1.0));
      s != 0.0 && s * s != 1.0 ==>
        && (q.x != 0.0 ==> Place(Some(m), x, y, z).x != q.x / s)
        && (q.y != 0.0 ==> Place(Some(m), x, y, z).y != q.y / s)
        && (q.z != 0.0 ==> Place(Some(m), x, y, z).z != q.z / s)
  {
    var q := MulVec(m, Vec4(x, y, z, 1.0));
    MulVecAt(m, Vec4(x, y, z, 1.0), 3);
    assert q.w == s;
    if s != 0.0 && s * s != 1.0 {
      if q.x != 0.0 { ScaleIsNotDivide(q.x, s); }
      if q.y != 0.0 { ScaleIsNotDivide(q.y, s); }
      if q.z != 0.0 { ScaleIsNotDivide(q.z, s); }
    }
  }

  /** Multiplying a nonzero value by s differs from dividing it by s unless s is 1 or -1. */
  lemma ScaleIsNotDivide(a: real, s: real)
    requires a != 0.0 && s != 0.0 && s * s != 1.0
    ensures a * s != a / s
  {
    var d := s * s - 1.0;
    assert a * s - a / s == a * d / s;
    assert a * d != 0.0;
  }

  /** The point of a complete vertex record. */
  function VertexPoint(rec: PlyRecord, applyTransform: Option<Mat4>): Point
    requires HasPointFields(rec)
  {
    var pos := Place(applyTransform,
                     Float32Value(rec.properties["x"]),
                     Float32Value(rec.properties["y"]),
                     Float32Value(rec.properties["z"]));
    Point(pos.x, pos.y, pos.z,
          Float32Normalised(rec.properties["red"]),
          Float32Normalised(rec.properties["green"]),
          Float32Normalised(rec.properties["blue"]))
  }

  /**
   * What `didRead` makes of one record: nothing for another element, the
   * error for an incomplete vertex, and otherwise its point.
   */
  function ReadRecord(rec: PlyRecord, applyTransform: Option<Mat4>): Result<Option<Point>, Error> {
    if rec.name != VertexElement then Success(None)
    else if !HasPointFields(rec) then Failure(PlyTypeError(MissingFieldsMessage))
    else Success(Some(VertexPoint(rec, applyTransform)))
  }

  /** The flat position buffer: x, y, z of each point in turn. */
  function Xyzs(points: seq<Point>): seq<real> {
    if points == [] then []
    else Xyzs(points[..|points| - 1]) + [points[|points| - 1].x, points[|points| - 1].y, points[|points| - 1].z]
  }

  /** The flat colour buffer: red, green, blue of each point in turn. */
  function Rgbs(points: seq<Point>): seq<real> {
    if points == [] then []
    else Rgbs(points[..|points| - 1]) + [points[|points| - 1].red, points[|points| - 1].green, points[|points| - 1].blue]
  }

  /**
   * The two buffers are index-aligned: point i occupies entries 3i, 3i+1 and
   * 3i+2 of both, so each holds exactly three values per point.
   */
  lemma {:induction false} FlatLayout(points: seq<Point>)
    ensures |Xyzs(points)| == |Rgbs(points)| == 3 * |points|
    ensures forall i | 0 <= i < |points| ::
      && Xyzs(points)[3 * i] == points[i].x
      && Xyzs(points)[3 * i + 1] == points[i].y
      && Xyzs(points)[3 * i + 2] == points[i].z
      && Rgbs(points)[3 * i] == points[i].red
      && Rgbs(points)[3 * i + 1] == points[i].green
      && Rgbs(points)[3 * i + 2] == points[i].blue
  {
    if points != [] {
      var init := points[..|points| - 1];
      FlatLayout(init);
      forall i | 0 <= i < |init| ensures points[i] == init[i] {
      }
    }
  }

  /** The records of the vertex element, in stream order. */
  function VertexRecords(records: seq<PlyRecord>): seq<PlyRecord> {
    if records == [] then []
    else
      var last := records[|records| - 1];
      VertexRecords(records[..|records| - 1]) + (if last.name == VertexElement then [last] else [])
  }

  /**
   * The records delivered to `didRead`, one after the other, stopping at the
   * first one that throws.
   */
  function ReadPoints(records: seq<PlyRecord>, applyTransform: Option<Mat4>): Result<seq<Point>, Error> {
    if records == [] then Success([])
    else
      var points :- ReadPoints(records[..|records| - 1], applyTransform);
      var p :- ReadRecord(records[|records| - 1], applyTransform);
      Success(if p.Some? then points + [p.value] else points)
  }

  /** Every vertex record is complete. */
  ghost predicate VerticesComplete(records: seq<PlyRecord>) {
    forall i | 0 <= i < |records| && records[i].name == VertexElement :: HasPointFields(records[i])
  }

  /**
   * Reading succeeds exactly when every vertex record is complete; then the
   * points are those of the vertex records, in order, and other elements
   * contribute nothing. Otherwise the error is the missing-fields error.
   */
  lemma {:induction false} ReadPointsSpec(records: seq<PlyRecord>, applyTransform: Option<Mat4>)
    ensures ReadPoints(records, applyTransform).Success? <==> VerticesComplete(records)
    ensures ReadPoints(records, applyTransform).Success? ==>
      var points, vertices := ReadPoints(records, applyTransform).value, VertexRecords(records);
      && |points| == |vertices|
      && forall i | 0 <= i < |points| :: HasPointFields(vertices[i]) && points[i] == VertexPoint(vertices[i], applyTransform)
    ensures ReadPoints(records, applyTransform).Failure? ==>
      ReadPoints(records, applyTransform).error == PlyTypeError(MissingFieldsMessage)
  {
    if records != [] {
      var init, last := records[..|records| - 1], records[|records| - 1];
      ReadPointsSpec(init, applyTransform);
      assert forall i | 0 <= i < |init| :: init[i] == records[i];
      if VerticesComplete(records) {
        assert VerticesComplete(init);
      }
    }
  }

  class PlySink {
    var xyzs: seq<real>
    var rgbs: seq<real>
    var applyTransform: Option<Mat4>
    /** The points collected so far, in the order they were read. */
    ghost var points: seq<Point>

    ghost predicate Valid()
      reads this
    {
      xyzs == Xyzs(points) && rgbs == Rgbs(points)
    }

    /** `init(applyTransform:)`: both buffers empty. */
    constructor (applyTransform: Option<Mat4>)
      ensures Valid() && points == [] && xyzs == [] && rgbs == []
      ensures this.applyTransform == applyTransform
    {
      this.applyTransform := applyTransform;
      xyzs, rgbs := [], [];
      points := [];
    }

    /**
     * `didRead(element:typeIndex:withHeader:)`: ignores other elements,
     * throws without appending for an incomplete vertex, and otherwise
     * appends the vertex's position and colour.
     */
    method DidRead(rec: PlyRecord) returns (o: Outcome<Error>)
      requires Valid()
      modifies this`xyzs, this`rgbs, this`points
      ensures Valid()
      ensures match ReadRecord(rec, applyTransform)
        case Failure(e) => o == Fail(e) && points == old(points) && xyzs == old(xyzs) && rgbs == old(rgbs)
        case Success(None) => o == Pass && points == old(points) && xyzs == old(xyzs) && rgbs == old(rgbs)
        case Success(Some(p)) =>
          && o == Pass && points == old(points) + [p]
          && xyzs == old(xyzs) + [p.x, p.y, p.z] && rgbs == old(rgbs) + [p.red, p.green, p.blue]
    {
      if rec.name != VertexElement {
        return Pass;
      }
      var props := rec.properties;
      if !("x" in props && "y" in props && "z" in props && "red" in props && "green" in props && "blue" in props) {
        return Fail(PlyTypeError(MissingFieldsMessage));
      }
      var x, y, z := Float32Value(props["x"]), Float32Value(props["y"]), Float32Value(props["z"]);
      var r, g, b := Float32Normalised(props["red"]), Float32Normalised(props["green"]), Float32Normalised(props["blue"]);
      ghost var pos := Place(applyTransform, x, y, z);
      if applyTransform.Some? {
        var xyzw := MulVec(applyTransform.value, Vec4(x, y, z, 1.0));
        x := xyzw.x * xyzw.w;
        y := xyzw.y * xyzw.w;
        z := xyzw.z * xyzw.w;
      }
      assert Point(x, y, z, r, g, b) == VertexPoint(rec, applyTransform) by {
        assert pos == Vec4(x, y, z, 1.0);
      }
      xyzs := xyzs + [x, y, z];
      rgbs := rgbs + [r, g, b];
      points := points + [Point(x, y, z, r, g, b)];
      assert points[..|points| - 1] == old(points);
      o := Pass;
    }
  }
}
