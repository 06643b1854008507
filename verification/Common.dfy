/** Types shared by the models: optional values, results, and instants.

    An instant is a whole number of microseconds, the precision at which the portal's
    PostgreSQL columns store timestamps; durations given in seconds are scaled by SECOND.
  */
module Common {
  datatype Option<+T> = None | Some(value: T)

  datatype Result<+T, +E> = Ok(value: T) | Err(error: E)

  type Time = int

  const SECOND: int := 1_000_000

  function Min(a: int, b: int): int {
    if a <= b then a else b
  }

  function Max(a: int, b: int): int {
    if a <= b then b else a
  }

  function Elements<T>(xs: seq<T>): set<T> {
    set i | 0 <= i < |xs| :: xs[i]
  }
}
