# NerfStudio dataset loader, modelled in Dafny

A model of `NerfStudio.swift`, the loader of a NeRF Studio project directory:
a `transforms.json` scene descriptor (camera model tag, ordered frames with a
pose and optional intrinsics, optional global intrinsics, the name of a point
file) and a PLY point cloud of seed points.

The model covers:

- **Camera intrinsics** (`intrinsics.dfy`, module `Intrinsics`): the complete
  `CameraIntrinsics` record and its memberwise initialiser (the datatype
  constructor), the image-size initialiser, and `localToPixelTransform`,
  proved to be a pinhole projection.
- **Matrices** (`matrix.dfy`, module `Matrix`): the simd operations the loader
  uses. A `simd_float4x4` is four columns, as in simd. The module has
  `simd_float4x4(rows:)`, `transpose`, the matrix-vector and matrix-matrix
  products, and the identity. The product is proved to be the textbook
  product, associative, with the identity as neutral element.
- **Frames and the descriptor** (`frames.dfy`, module `Frames`):
  - the `localToWorld` getter and setter over the stored `transform_matrix`,
    with their round trip;
  - the frame initialiser;
  - `GetCameraIntrinsics`: each of the eleven fields comes from the frame,
    else from the descriptor, and the first field missing from both throws
    `"Missing <field>"`;
  - the pose alignment the loader applies to every frame.
- **Point sink** (`pointsink.dfy`, module `PointSink`): `PlySink` is a class
  with the two growing buffers `xyzs` and `rgbs`. `DidRead` ignores
  non-vertex elements, throws without appending for an incomplete vertex, and
  otherwise appends the (optionally transformed) position and the colour. A
  ghost sequence of points, tied to both buffers, keeps them index-aligned.
- **Dataset assembly** (`dataset.dfy`, module `Dataset`):
  - `LoadPoints`: rejects a missing or non-`.ply` point file name, then feeds
    the file's records to a fresh sink;
  - `AlignFrames`: the in-place `mutateEach` over the frames;
  - `LoadNerfStudioData`: the throwing initialiser of `NerfStudioData`;
  - `pointCount`.

Scalars are `real`. The properties are about layout, precedence, buffer shape
and error conditions, not about float rounding. Swift's `throws` is a `Result`
(or an `Outcome` for `didRead`) carrying an `Errors.Error`. That error keeps
the source's exact messages.

File access is a parameter. `LoadNerfStudioData` receives `decode`, which gives
the decoded descriptor (or the error reading or decoding it) at a path. It
also receives `plyFiles`, which gives a `PlyStream` at a path. A `PlyStream`
is the records the PLY reader would deliver to its delegate, in file order,
plus the reader's own failure if it has one. Paths are the source's string
concatenations (`projectRoot + "/transforms.json"`,
`projectRoot + "/" + pointFilename`).

Swift structs have value semantics. So `CameraIntrinsics`, `NerfStudioFrame`,
`NerfStudioTransforms` and `NerfStudioData` are datatypes, and the
`localToWorld` setter is a functional update that replaces `transform_matrix`
and nothing else. The frames array is updated in place by `AlignFrames` on a
Dafny `array`.

The getter `simd_float4(transform_matrix[i])` traps unless rows 0 to 3 exist
with exactly four entries each. This is a `requires` (`PoseShaped`), not a
thrown error. `LoadNerfStudioData` requires it of every decoded frame.

The loader's behaviour at its edges:

- the incomplete-vertex error is PopPly's `PLYTypeError` with the message
  "Missing x/y/z/red/green/blue from seed points";
- a missing point file name throws "No point/ply/bin filename in meta";
- an unsupported one throws "Dont know how to load <name>";
- `LoadPoints` always gives the sink a transform (identity by default), so a
  position is always multiplied by the matrix and then by the resulting `w`.
  `PlaceIdentity` proves that the identity leaves positions unchanged, and
  `PlaceScaled` that a last row (0, 0, 0, s) scales x, y and z by s rather
  than dividing them by it;
- a decoded descriptor whose frame has a `transform_matrix` with fewer than
  four rows, or with one of rows 0 to 3 not of exactly four floats, is not
  rejected by `JSONDecoder`; the loader then traps
  in the `localToWorld` getter during `mutateEach` instead of throwing.

## Model

| member | source | states |
|---|---|---|
| `Matrix.Vec4.ToArray` | NerfStudio.swift:86-89 | `array` lists x, y, z, w: four entries, entry i is component i |
| `Matrix.FromArray` | NerfStudio.swift:101-104 | `simd_float4([Float])` of a four-element array gives back that array |
| `Matrix.FromRows` | NerfStudio.swift:105 | `simd_float4x4(rows:)` has the given vectors as its rows 0 to 3 |
| `Matrix.Transpose` | NerfStudio.swift:109 | entry (i, j) of the transpose is entry (j, i) of the matrix |
| `Matrix.TransposeInvolutive` | NerfStudio.swift:109 | transposing twice gives the matrix back |
| `Matrix.MulVec` | NerfStudio.swift:256 | `m * v`, the transform applied to a homogeneous point; its contract is stated by `MulVecColumns` (the column combination simd defines), `MulVecMul` (applying a product) and `IdentityNeutral` |
| `Matrix.Mul` | NerfStudio.swift:289 | `a * b`, the alignment of a pose; its contract is stated by `MulAt` (the textbook entries), `MulAssociative` and `IdentityNeutral` |
| `Matrix.MulVecColumns` | NerfStudio.swift:256 | `m * v` is the sum of m's columns weighted by v's components, the simd definition |
| `Matrix.MulAt` | NerfStudio.swift:289 | entry (i, j) of `a * b` is the sum over k of a(i,k) b(k,j) |
| `Matrix.IdentityNeutral` | NerfStudio.swift:279 | the default `applyTransform`, the identity, is neutral on both sides of the product |
| `Matrix.MulVecMul` | NerfStudio.swift:256 | applying `a * b` to a vector is applying b, then a |
| `Matrix.MulAssociative` | NerfStudio.swift:289 | the matrix product is associative |
| `Intrinsics.FromImageSize` | NerfStudio.swift:35-48 | focal lengths equal the image width and height, the principal point is half of each, all five distortion terms are 0 |
| `Intrinsics.LocalToPixel` | NerfStudio.swift:70-81 | `localToPixelTransform`; its contract is `LocalToPixelProjects`: a pinhole projection with depth kept |
| `Intrinsics.GetValue` | NerfStudio.swift:182-189 | the nested `getValue`: a present value passes through, an absent one throws "Missing <context>"; stated for the whole resolution by `ResolutionPrecedence` and `FailsAtFirstMissing` |
| `Intrinsics.LocalToPixelProjects` | NerfStudio.swift:70-81 | the local-to-pixel transform maps (x, y, z, 1) to (fx x + cx z, fy y + cy z, z, 1), so after division by depth the pixel is (fx x/z + cx, fy y/z + cy) |
| `Intrinsics.ImageSizeProjection` | NerfStudio.swift:35-48 | with image-size intrinsics the point (x, y) at depth 1 maps to pixel (w (x + 1/2), h (y + 1/2)): the axis hits the centre, the unit square spans the image |
| `Intrinsics.Present` | NerfStudio.swift:138-148 | the frame initialiser's optional fields all hold the given intrinsics, fx and fy included |
| `Frames.LocalToWorld` | NerfStudio.swift:98-106 | the getter's entry (i, j) is `transform_matrix[i][j]`: each stored inner array is a row |
| `Frames.PoseRows` | NerfStudio.swift:107-115 | the setter stores exactly 4 rows of 4, with `transform_matrix[i][j]` equal to the pose's entry (i, j) |
| `Frames.SetLocalToWorld` | NerfStudio.swift:107-115 | the `localToWorld` setter; its contract is `PoseRoundTrip` (the getter reads back the pose set, nothing else changes) and `StoredPoseRoundTrip` |
| `Frames.PoseRoundTrip` | NerfStudio.swift:96-116 | after setting a pose, the getter returns it; the image path and intrinsics are untouched |
| `Frames.StoredPoseRoundTrip` | NerfStudio.swift:96-116 | setting the pose just read from 4 stored rows leaves the frame unchanged |
| `Frames.NewFrame` | NerfStudio.swift:133-149 | the built frame keeps the image path, stores exactly the four rows the setter writes (so `StoredPoseRoundTrip` applies to it), its pose reads back as the one given, and every optional intrinsic holds the given value (fx in `fl_x`, fy in `fl_y`) |
| `Frames.NewTransforms` | NerfStudio.swift:173-178 | the built descriptor keeps the camera model, the frames in their order and the point file name as given, and has no global intrinsics: every one of the eleven fields is absent |
| `Frames.NewFrameResolves` | NerfStudio.swift:133-149 | a frame built from complete intrinsics resolves to exactly them whatever the global values, and its pose reads back as given |
| `Frames.NewTransformsResolvesFromFrame` | NerfStudio.swift:173-178 | a descriptor built by the initialiser has no global intrinsics, so every field comes from the frame |
| `Frames.GetCameraIntrinsics` | NerfStudio.swift:180-203 | resolution of a frame's intrinsics; its contract is stated by `ResolutionPrecedence`, `FailsAtFirstMissing` and `ResolutionFailsAtFirstMissing` |
| `Frames.ResolutionPrecedence` | NerfStudio.swift:190-202 | resolution succeeds iff each of the 11 fields is present in the frame or globally; each resolved field is the frame's value if present, else the global one |
| `Frames.FailsAtFirstMissing` | NerfStudio.swift:182-202 | when the field at position i of w,h,fx,fy,cx,cy,k1,k2,k3,p1,p2 is the first absent from both, resolution throws "Missing <that field>" and returns no intrinsics |
| `Frames.ResolutionFailsAtFirstMissing` | NerfStudio.swift:182-202 | every failed resolution is of that kind: it names the first field, in resolution order, absent from both frame and descriptor |
| `Frames.AlignedFrames` | NerfStudio.swift:286-290 | alignment keeps frame count, order, image paths and intrinsics, and each new pose is `applyTransform * pose` |
| `Frames.AlignIdentity` | NerfStudio.swift:279-290 | aligning with the default identity leaves every pose unchanged |
| `Frames.AlignCompose` | NerfStudio.swift:286-290 | aligning by a and then by b is aligning once by b * a |
| `Frames.AlignKeepsIntrinsics` | NerfStudio.swift:286-290 | alignment does not change what any frame's intrinsics resolve to |
| `PointSink.NormalisedByteInUnitRange` | NerfStudio.swift:245-247 | in the model's reading of PopPly's `float32Value(normalise8: 255)` (a byte divided by 255), an 8-bit colour lies in 0...1 and is 1 exactly for 255 |
| `PointSink.Place` | NerfStudio.swift:254-260 | the position stored for a vertex: x, y and z of `applyTransform * (x, y, z, 1)`, each multiplied (not divided) by that product's w; `PlaceScaled`, `PlaceIdentity` and `PlaceAffine` state it |
| `PointSink.PlaceScaled` | NerfStudio.swift:254-260 | for a transform whose last row is (0, 0, 0, s), x, y and z of the product are multiplied by s; when s is nonzero and s² ≠ 1, each nonzero coordinate comes out different from the perspective divide by s, the product's w |
| `PointSink.ReadRecord` | NerfStudio.swift:234-252 | what `didRead` makes of one record; its contract is stated by `ReadPointsSpec` (over a stream) and `PlySink.DidRead` (on the buffers) |
| `PointSink.PlaceIdentity` | NerfStudio.swift:254-260 | under the identity transform a position is unchanged, the same as with no transform |
| `PointSink.PlaceAffine` | NerfStudio.swift:254-260 | for an affine transform the resulting w is 1, so a point moves exactly as the poses do |
| `PointSink.FlatLayout` | NerfStudio.swift:262-267 | both buffers hold 3 values per point, and point i occupies entries 3i..3i+2 of each, in record order |
| `PointSink.ReadPointsSpec` | NerfStudio.swift:234-268 | a record stream reads successfully iff every vertex record has x, y, z, red, green and blue; the points are then those of the vertex records, in order, with other elements ignored; otherwise the error is the missing-fields error |
| `PointSink.PlySink.constructor` | NerfStudio.swift:224-227 | a new sink has empty buffers and keeps the transform it is given |
| `PointSink.PlySink.DidRead` | NerfStudio.swift:234-268 | a non-vertex element changes nothing; an incomplete vertex throws and appends nothing; otherwise exactly 3 position values and 3 colour values are appended; both buffers stay index-aligned |
| `Dataset.HasSuffix` | NerfStudio.swift:303 | `hasSuffix` holds exactly when the string is some prefix followed by the suffix |
| `Dataset.PointsOf` | NerfStudio.swift:295-310 | the specification of point loading: no point file name throws "No point/ply/bin filename in meta", a name without the `.ply` suffix throws "Dont know how to load <name>", otherwise the reader's or sink's first error or the points of `projectRoot + "/" + name` read with `applyTransform`; `UnsupportedPointFile` instantiates the suffix case |
| `Dataset.LoadPoints` | NerfStudio.swift:295-311 | the method fails exactly when `PointsOf` does, with the same error, and otherwise returns the flattened position and colour buffers of `PointsOf`'s points, in order |
| `Dataset.AlignFrames` | NerfStudio.swift:286-290 | in place and in order, every frame becomes its aligned version |
| `Dataset.LoadNerfStudioData` | NerfStudio.swift:279-293 | a descriptor error is rethrown; otherwise the point file's error, or the data holding the descriptor with every pose aligned and the flat buffers of the points read with the same transform |
| `Dataset.NerfStudioData.PointCount` | NerfStudio.swift:277 | `pointsXyz.count / 3` rounded down: 3 × `pointCount` is at most the buffer length and more than the length minus 3 |
| `Dataset.PointCountOfPoints` | NerfStudio.swift:277 | `pointCount` of the buffers of n points is n, and both buffers hold 3 × `pointCount` values |
| `Dataset.PointCountIsVertexCount` | NerfStudio.swift:277 | a successfully read point file gives one point per vertex record, so `pointCount` counts the file's vertices |
| `Dataset.UnsupportedPointFile` | NerfStudio.swift:303-310 | a point file named `cloud.xyz` is refused with "Dont know how to load cloud.xyz" before anything is read |
| `Dataset.TwoVertexFile` | NerfStudio.swift:234-268 | two vertices around an element of another kind, read with the identity: two points in file order, positions unchanged, colours divided by 255 |

## Left out

- LoadNerfStudioData: requires every decoded frame's `transform_matrix` to have at least four rows, rows 0 to 3 of exactly four entries each (`AllPosesShaped`; further rows are never read). `JSONDecoder` accepts any `[[Float]]`, and for fewer than four rows, or one of rows 0 to 3 without exactly four entries, the program traps in the `localToWorld` getter during `mutateEach` instead of throwing; that input is excluded, not modelled.
- JSON decoding and file reads (`Data(contentsOf:)`, `JSONDecoder`): replaced by the `decode` and `plyFiles` parameters. Unknown JSON keys, missing required keys and the `Encodable` conformance are the decoder's business.
- `URL(fileURLWithPath:)`: a path is the concatenated string; URL normalisation is not modelled.
- PopPly is not part of this model. A record is its element name plus a map from property name to stored value. `index(forPropertyNamed:)` is a key lookup in that map. `float32Value` is `Float32Value` and `float32Value(normalise8: 255)` is `Float32Normalised`: an 8-bit value is read as itself, or divided by 255 when normalised; any other stored value is read as it is. Errors that `float32Value` itself may throw are not modelled.
- `PLYReader.read(url:to:)` is modelled only by what the sink sees: the records in file order, stopping at the first throw of `didRead`, then the reader's own failure if there is one (`PlyStream`). The header passed to `didStartReading` is not modelled; that method does nothing.
- `pixelToLocalTransform`: a floating-point matrix inverse from simd.
- Float rounding and the 32-bit float format: all scalars are reals. `Float(imageWidth)` is exact.
- `mutateEach` (PopCommon) is the in-order, in-place loop of `AlignFrames`.
- `hasSuffix` compares characters one by one; Unicode canonical equivalence is not modelled.
- `NerfDataError`'s `LocalizedError` conformance (`errorDescription`) and the SwiftUI import.
- `Package.swift`: a build manifest.
