/** Small datatypes and arithmetic shared by the models. */
module Common {
  type byte = b: int | 0 <= b < 256

  /** The consensus fork of a payload or block; the relay supports none before Capella. */
  datatype Version = Capella | Deneb | Electra | Fulu | Earlier

  datatype Option<+T> = None | Some(value: T)

  datatype Result<+T, +E> = Ok(value: T) | Err(error: E)

  function Max(a: int, b: int): int {
    if a < b then b else a
  }

  function Min(a: int, b: int): int {
    if a < b then a else b
  }
}
