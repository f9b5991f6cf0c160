/** The validity gate a reading passes before it is converted to a point. */
module Gate {
  import opened LineParser

  /** The sensor's range, 6 m. */
  const MaxSensorRangeMm: int := 6000

  /** `0 <= distance_mm <= MAX_SENSOR_RANGE_MM`; the angle is not looked at. */
  predicate InRange(r: Reading) {
    0 <= r.distanceMm <= MaxSensorRangeMm
  }

  /** Both ends of the range are inclusive, and only the distance decides. */
  lemma InRangeBounds(angle: int, otherAngle: int)
    ensures InRange(Reading(angle, 0)) && InRange(Reading(angle, MaxSensorRangeMm))
    ensures !InRange(Reading(angle, -1)) && !InRange(Reading(angle, MaxSensorRangeMm + 1))
    ensures forall d :: InRange(Reading(angle, d)) == InRange(Reading(otherAngle, d))
  {
  }
}
