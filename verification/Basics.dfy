/** Small definitions shared by several parts of the model. */
module Basics {

  datatype Option<+T> = None | Some(value: T)

  /** Milliseconds. */
  type Time = int

  const HOUR: Time := 3_600_000
  const DAY: Time := 24 * HOUR

  function Min(a: int, b: int): int { if a < b then a else b }

  /** `dayjs(a).diff(dayjs(b), unit)`: whole units of a fixed length, cut towards zero. */
  function DiffUnits(a: Time, b: Time, unit: nat): int
    requires unit > 0
  {
    if a >= b then (a - b) / unit else -((b - a) / unit)
  }
}
