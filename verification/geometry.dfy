/** Points in the sensor plane and the conversion from a polar reading. */
module Geometry {

  /** A planar point in metres, sensor at the origin. The source holds Python floats;
      the conversion that produces them is a parameter of the model, so only their order
      matters, and finite doubles are ordered as reals are. */
  datatype Point = Point(x: real, y: real)

  /** `(angle_deg, distance_mm) -> (distance_m * cos(rad), distance_m * sin(rad))`,
      left abstract: the pipeline takes it as an argument. */
  type Converter = (int, int) -> Point

  /** The least integer magnitude whose conversion to a double rounds up to 2^1024 and so
      overflows: 2^1024 - 2^970, halfway between the largest double and 2^1024. */
  const FloatOverflowBound: int :=
    0xFFFF_FFFF_FFFF_FC00_0000_0000_0000_0000_0000_0000_0000_0000_0000_0000_0000_0000_0000_0000_0000_0000_0000_0000_0000_0000_0000_0000_0000_0000_0000_0000_0000_0000_0000_0000_0000_0000_0000_0000_0000_0000_0000_0000_0000_0000_0000_0000_0000_0000_0000_0000_0000_0000_0000_0000_0000_0000_0000_0000_0000_0000_0000_0000_0000_0000

  /** `math.radians(angle_deg)` first turns the integer into a double; beyond this range
      that raises `OverflowError`, which the per-line handler swallows. */
  predicate AngleConvertible(angleDeg: int) {
    -FloatOverflowBound < angleDeg < FloatOverflowBound
  }
}
