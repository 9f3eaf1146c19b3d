/** Go payload types that the converters receive. Integers are bounded as in
    Go; the float, timestamp and date payloads are opaque: the model never
    formats them (that is strconv / time / civil library behaviour). */
module Host {

  /** Go `byte` (`uint8`). */
  newtype byte = x: int | 0 <= x < 0x100

  /** Go `int64`; Go `int` is taken to be 64 bits wide, so `int64(v)` on an
      `int` is the identity. */
  newtype int64 = x: int | -0x8000_0000_0000_0000 <= x < 0x8000_0000_0000_0000

  /** A Go `float64`, by its IEEE-754 bit pattern. */
  datatype FloatBits = FloatBits(bits: bv64)

  /** A Go `time.Time`: an instant and the zone offset it carries. */
  datatype Timestamp = Timestamp(unixSeconds: int, nanos: int, offsetSeconds: int)

  /** A `civil.Date`. */
  datatype CivilDate = CivilDate(year: int, month: int, day: int)
}
