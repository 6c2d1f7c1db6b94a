/** Value types shared by every part of the model: file contents and outcomes. */
module Types {

  /** One byte of a file's contents. */
  newtype byte = b: int | 0 <= b < 256

  /** The contents of a file. */
  type Bytes = seq<byte>

  datatype Option<T> = None | Some(value: T)

  /** The outcome of a step that opens files for reading. Opening a file that is not
      there raises an error that nothing in the program catches, so the step (and the
      whole run) stops, naming the file. */
  datatype Result<T> = Ok(value: T) | Unreadable(path: string)
}
