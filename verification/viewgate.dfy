/** Region-of-interest configuration and the angular containment test both
    decoders apply before computing a point. Angles are device azimuths in
    hundredths of a degree. */
module ViewGate {
  import opened Packet

  /** Range bounds (passed through as given) and the device-native angular
      window. */
  datatype Config = Config(minRange: real, maxRange: real, minAngle: int, maxAngle: int)

  /** The containment condition as the decoders write it: a plain window
      when minAngle < maxAngle, a window wrapping through 0 when
      minAngle > maxAngle, and nothing when the bounds are equal. */
  function InView(azimuth: int, minAngle: int, maxAngle: int): (inside: bool)
    ensures minAngle < maxAngle ==> (inside <==> minAngle <= azimuth <= maxAngle)
    ensures minAngle > maxAngle ==> (inside <==> azimuth <= maxAngle || azimuth >= minAngle)
    ensures minAngle == maxAngle ==> !inside
  {
    || (azimuth >= minAngle && azimuth <= maxAngle && minAngle < maxAngle)
    || (minAngle > maxAngle && (azimuth <= maxAngle || azimuth >= minAngle))
  }

  /** Clockwise distance, in rotation units, from `from` to `to` on the circle. */
  function Sweep(from: int, to: int): (d: int)
    ensures 0 <= d < ROTATION_MAX_UNITS
    ensures (from + d - to) % 36000 == 0
  {
    (to - from) % 36000
  }

  /** For distinct bounds on the circle, the test accepts exactly the
      azimuths met when sweeping from minAngle to maxAngle: one definition
      covers both the plain and the wrap-around case. */
  lemma InViewIsCircularArc(azimuth: int, minAngle: int, maxAngle: int)
    requires 0 <= azimuth < ROTATION_MAX_UNITS
    requires 0 <= minAngle < ROTATION_MAX_UNITS && 0 <= maxAngle < ROTATION_MAX_UNITS
    requires minAngle != maxAngle
    ensures InView(azimuth, minAngle, maxAngle) <==> Sweep(minAngle, azimuth) <= Sweep(minAngle, maxAngle)
  {
    var n := ROTATION_MAX_UNITS;
    if minAngle < maxAngle {
      assert Sweep(minAngle, maxAngle) == maxAngle - minAngle;
      if azimuth >= minAngle {
        assert Sweep(minAngle, azimuth) == azimuth - minAngle;
      } else {
        assert Sweep(minAngle, azimuth) == azimuth - minAngle + n;
      }
    } else {
      assert Sweep(minAngle, maxAngle) == maxAngle - minAngle + n;
      if azimuth >= minAngle {
        assert Sweep(minAngle, azimuth) == azimuth - minAngle;
      } else {
        assert Sweep(minAngle, azimuth) == azimuth - minAngle + n;
      }
    }
  }

  /** A bound of exactly 36000 (a converted angle of 0) is not reduced to
      0: as maximum it gives the azimuths from minAngle on, so when
      minAngle > 0 azimuth 0 is rejected, and as minimum it gives the
      azimuths up to maxAngle. */
  lemma InViewAtFullTurn(azimuth: int, minAngle: int, maxAngle: int)
    requires 0 <= azimuth < ROTATION_MAX_UNITS
    requires 0 <= minAngle <= ROTATION_MAX_UNITS && 0 <= maxAngle <= ROTATION_MAX_UNITS
    requires minAngle != maxAngle
    ensures maxAngle == ROTATION_MAX_UNITS ==> (InView(azimuth, minAngle, maxAngle) <==> minAngle <= azimuth)
    ensures minAngle == ROTATION_MAX_UNITS ==> (InView(azimuth, minAngle, maxAngle) <==> azimuth <= maxAngle)
  {
  }

  /** The full-circle window (0, 36000) that a degenerate configuration
      collapses to accepts every azimuth the sensor can report. */
  lemma FullCircleAcceptsAll(azimuth: int)
    requires 0 <= azimuth <= ROTATION_MAX_UNITS
    ensures InView(azimuth, 0, ROTATION_MAX_UNITS)
  {
  }

  /** Stores the range bounds and the already-converted integer angle
      bounds; equal bounds (which would accept nothing) become the full
      circle. The resulting window is never empty. */
  function SetParameters(minRange: real, maxRange: real, minAngle: int, maxAngle: int): (c: Config)
    ensures c.minRange == minRange && c.maxRange == maxRange
    ensures c.minAngle != c.maxAngle
    ensures InView(c.minAngle, c.minAngle, c.maxAngle)
    ensures minAngle == maxAngle ==>
              && c.minAngle == 0 && c.maxAngle == ROTATION_MAX_UNITS
              && forall a :: 0 <= a < ROTATION_MAX_UNITS ==> InView(a, c.minAngle, c.maxAngle)
    ensures minAngle != maxAngle ==> c.minAngle == minAngle && c.maxAngle == maxAngle
  {
    if minAngle == maxAngle then
      Config(minRange, maxRange, 0, ROTATION_MAX_UNITS)
    else
      Config(minRange, maxRange, minAngle, maxAngle)
  }

  /** Feeding a configuration back through SetParameters leaves it as it is. */
  lemma SetParametersIdempotent(minRange: real, maxRange: real, minAngle: int, maxAngle: int)
    ensures var c := SetParameters(minRange, maxRange, minAngle, maxAngle);
            SetParameters(c.minRange, c.maxRange, c.minAngle, c.maxAngle) == c
  {
  }
}
