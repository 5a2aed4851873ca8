/** What several modules share. */
module Common {
  datatype Option<+T> = None | Some(value: T)

  /** Seconds on one clock; for reminders, on the user's civil timeline. */
  type Instant = int

  const INT64_MAX: int := 0x7FFF_FFFF_FFFF_FFFF

  function Min(a: int, b: int): int { if a < b then a else b }
}
