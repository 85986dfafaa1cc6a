/** The errors the loader throws, each carrying its human-readable message. */
module Errors {

  datatype Error =
      /** NerfDataError: missing intrinsics, no point file, unsupported point file. */
    | NerfDataError(message: string)
      /** PopPly's PLYTypeError, thrown by the point sink for an incomplete vertex. */
    | PlyTypeError(message: string)
      /** Whatever reading the files, decoding the JSON or parsing the PLY stream throws. */
    | ForeignError(message: string)
}
