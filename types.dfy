/** Values shared by the tag engine: tag mappings, errors and the
    failure-carrying wrappers that stand for Go's `(T, error)` returns. */
module Types {

  /** A tag mapping: string keys, unique, with string values. */
  type Tags = map<string, string>

  /** A byte of file content. */
  newtype byte = x: int | 0 <= x < 256

  /** The errors the engine propagates unchanged to its caller. */
  datatype Error =
    | NotExist(path: string)               // the path names nothing
    | IsDirectory(path: string)            // a file operation met a directory
    | NotDirectory(path: string)           // a directory listing met a file
    | NotReadable(path: string)            // the path exists but cannot be read
    | NotWritable(path: string)            // the path cannot be written
    | Malformed(path: string, why: string) // the bytes are not a flat string object
    | EncodeFailed(why: string)            // the serializer refused the tags
    | FetchFailed(why: string)             // the cloud metadata call failed

  datatype Option<+T> = None | Some(value: T)

  datatype Result<+T> = Ok(value: T) | Err(error: Error)
}
