/** Java value types and the failure shapes the resolver works with. */
module Lang {

  /** A Java reference that may be null. */
  datatype Option<+T> = None | Some(value: T)

  /** A computation that either returns normally or throws. */
  datatype Result<+T, +E> = Ok(value: T) | Err(error: E)

  /** Java `byte`: two's complement, 8 bits. */
  newtype int8 = x: int | -0x80 <= x < 0x80

  /** Java `int`: two's complement, 32 bits. */
  newtype int32 = x: int | -0x8000_0000 <= x < 0x8000_0000

  /** The exceptions the resolver throws or lets escape. */
  datatype Exception =
    | IllegalState(message: string)
    | IllegalArgument(message: string)
    | NullPointer
    | ArrayIndexOutOfBounds(index: int)
    | StringIndexOutOfBounds
    | IO(path: string)
    | Runtime(cause: Exception)
    | NoClassDefFound(message: string)
}
