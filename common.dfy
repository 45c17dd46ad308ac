/** Types shared by every part of the model. */
module Common {

  /** A filesystem path, as the tracer records it and the hasher receives it. */
  type Path = string

  /** Rust's `u64`, the width of a MurmurHash3 digest. */
  newtype U64 = x: int | 0 <= x < 0x1_0000_0000_0000_0000

  /** File contents as read by `std::fs::read`. */
  type Bytes = seq<bv8>

  /** The files visible to the process: a path that is absent cannot be read. */
  type FileSystem = map<Path, Bytes>

  datatype Option<+T> = None | Some(value: T)

  /** The I/O error that `std::fs::read` raises, surfacing in Python as an exception. */
  datatype IoError = NotFound(path: Path)

  datatype Result<+T> = Ok(value: T) | Err(error: IoError)
}
