/** Per-return arithmetic shared by both decoders: C-style rounding and
    integer division, the corrected distance, the rotation correction by
    angle subtraction, the two-point distance correction, the projection
    to Cartesian coordinates and the reflectivity formulas. Floating-point
    values are modelled as reals. */
module Geometry {
  import opened Packet
  import opened LaserCalibration

  function Abs(x: real): (r: real)
    ensures r >= 0.0 && (r == x || r == -x)
  {
    if x < 0.0 then -x else x
  }

  /** C `round`: the nearest integer, halfway cases away from zero. */
  function Round(x: real): (n: int)
    ensures x >= 0.0 ==> -0.5 < n as real - x <= 0.5
    ensures x < 0.0 ==> -0.5 <= n as real - x < 0.5
  {
    if x >= 0.0 then (x + 0.5).Floor else -((-x + 0.5).Floor)
  }

  /** Rounding a real that lies between two integers stays between them,
      and an integer rounds to itself. */
  lemma RoundBetween(x: real, lo: int, hi: int)
    requires lo as real <= x <= hi as real
    ensures lo <= Round(x) <= hi
    ensures x == lo as real ==> Round(x) == lo
  {
    var n := Round(x);
    assert (n - lo) as real > -0.5 && (hi - n) as real >= -0.5;
  }

  /** C `%` on int by ROTATION_MAX_UNITS: the remainder takes the sign of
      the dividend and differs from it by a whole number of turns. */
  function CRemRotation(a: int): (r: int)
    ensures a >= 0 ==> 0 <= r < ROTATION_MAX_UNITS
    ensures a < 0 ==> -(ROTATION_MAX_UNITS as int) < r <= 0
    ensures (a - r) % 36000 == 0
  {
    if a >= 0 then a % 36000 else -((-a) % 36000)
  }

  /** C `/` on int by 2: the quotient is truncated toward zero. */
  function CHalf(a: int): (q: int)
    ensures a >= 0 ==> 2 * q <= a <= 2 * q + 1
    ensures a < 0 ==> 2 * q - 1 <= a <= 2 * q
  {
    if a >= 0 then a / 2 else -((-a) / 2)
  }

  /** Distance in metres: the raw count times the resolution (0.002 m,
      DISTANCE_RESOLUTION) plus the beam's base distance correction. */
  function CorrectedDistance(raw: u16, c: LaserCorrection): (d: real)
    ensures raw == 0 ==> d == c.distCorrection
    ensures d >= c.distCorrection
  {
    raw as real * 0.002 + c.distCorrection
  }

  /** An angle represented by its cosine and sine. */
  datatype Rot = Rot(cos: real, sin: real)

  function NormSquared(r: Rot): real {
    r.cos * r.cos + r.sin * r.sin
  }

  /** cos(a-b) and sin(a-b) from the sines and cosines of a and b. */
  function AngleDifference(a: Rot, b: Rot): Rot {
    Rot(a.cos * b.cos + a.sin * b.sin, a.sin * b.cos - a.cos * b.sin)
  }

  /** cos(a+b) and sin(a+b), the inverse operation. */
  function AngleSum(a: Rot, b: Rot): Rot {
    Rot(a.cos * b.cos - a.sin * b.sin, a.sin * b.cos + a.cos * b.sin)
  }

  /** Subtracting a unit angle and adding it back restores the original. */
  lemma AngleDifferenceSumInverse(a: Rot, b: Rot)
    requires NormSquared(b) == 1.0
    ensures AngleSum(AngleDifference(a, b), b) == a
  {
    var cb2 := b.cos * b.cos;
    var sb2 := b.sin * b.sin;
    calc {
      AngleSum(AngleDifference(a, b), b).cos;
      (a.cos * b.cos + a.sin * b.sin) * b.cos - (a.sin * b.cos - a.cos * b.sin) * b.sin;
      a.cos * (cb2 + sb2);
      a.cos;
    }
    calc {
      AngleSum(AngleDifference(a, b), b).sin;
      (a.sin * b.cos - a.cos * b.sin) * b.cos + (a.cos * b.cos + a.sin * b.sin) * b.sin;
      a.sin * (cb2 + sb2);
      a.sin;
    }
  }

  /** The difference of two unit angles is again a unit angle. */
  lemma AngleDifferenceOnUnitCircle(a: Rot, b: Rot)
    requires NormSquared(a) == 1.0 && NormSquared(b) == 1.0
    ensures NormSquared(AngleDifference(a, b)) == 1.0
  {
    var ca, sa, cb, sb := a.cos, a.sin, b.cos, b.sin;
    calc {
      NormSquared(AngleDifference(a, b));
      (ca * cb + sa * sb) * (ca * cb + sa * sb) + (sa * cb - ca * sb) * (sa * cb - ca * sb);
      (ca * ca + sa * sa) * (cb * cb + sb * sb);
      1.0;
    }
  }

  /** The table entry for a rotation index. */
  function TableRotation(t: RotationTables, index: int): Rot
    requires ValidTables(t) && 0 <= index < ROTATION_MAX_UNITS
  {
    Rot(t.cosRot[index], t.sinRot[index])
  }

  /** The rotation angle of a return: the table angle at `index` minus the
      beam's rotational correction. A zero correction leaves the table
      entry as it is. */
  function CorrectedRotation(t: RotationTables, index: int, c: LaserCorrection): (r: Rot)
    requires ValidTables(t) && 0 <= index < ROTATION_MAX_UNITS
    ensures c.cosRotCorrection == 1.0 && c.sinRotCorrection == 0.0 ==> r == TableRotation(t, index)
  {
    AngleDifference(TableRotation(t, index), Rot(c.cosRotCorrection, c.sinRotCorrection))
  }

  /** Extra correction along one axis at provisional coordinate `v`: the
      line through (`near`, `nearCorr`) and (25.04, `base`), less `base`. */
  function AxisCorrection(base: real, nearCorr: real, v: real, near: real): (r: real)
    requires near < 25.04
    ensures v == near ==> r == nearCorr - base
    ensures v == 25.04 ==> r == 0.0
  {
    var f := (v - near) / (25.04 - near);
    assert (base - nearCorr) * (v - near) / (25.04 - near) == (base - nearCorr) * f;
    (base - nearCorr) * (v - near) / (25.04 - near) + nearCorr - base
  }

  /** Per-axis distance corrections, interpolated linearly between the two
      reference points: the far reference gets no extra correction, the
      near one gets the beam's per-axis correction in place of the base
      one. The reference points are 2.4 m (x) and 1.93 m (y) near and
      25.04 m far. Both are exactly zero when the beam has no two-point
      data. */
  function TwoPointCorrection(c: LaserCorrection, xx: real, yy: real): (corr: (real, real))
    ensures !c.twoPtCorrectionAvailable ==> corr == (0.0, 0.0)
    ensures c.twoPtCorrectionAvailable && xx == 2.4 ==>
              corr.0 == c.distCorrectionX - c.distCorrection
    ensures c.twoPtCorrectionAvailable && xx == 25.04 ==> corr.0 == 0.0
    ensures c.twoPtCorrectionAvailable && yy == 1.93 ==>
              corr.1 == c.distCorrectionY - c.distCorrection
    ensures c.twoPtCorrectionAvailable && yy == 25.04 ==> corr.1 == 0.0
  {
    if c.twoPtCorrectionAvailable then
      (AxisCorrection(c.distCorrection, c.distCorrectionX, xx, 2.4),
       AxisCorrection(c.distCorrection, c.distCorrectionY, yy, 1.93))
    else
      (0.0, 0.0)
  }

  /** A Cartesian position in the output (right-handed) convention. */
  datatype Position = Position(x: real, y: real, z: real)

  /** Distance in the xy plane before rotation, for a given radial distance. */
  function PlanarDistance(c: LaserCorrection, distance: real): real {
    distance * c.cosVertCorrection - c.vertOffsetCorrection * c.sinVertCorrection
  }

  /** Position of a return at corrected distance `distance` and rotation
      `rot`: the absolute provisional x and y pick the two-point
      corrections, then x uses the x-corrected and y and z the y-corrected
      distance; finally the axes are swapped into the output convention.
      Without two-point data the position depends on `distance` alone. */
  function Project(c: LaserCorrection, distance: real, rot: Rot): (p: Position)
    ensures !c.twoPtCorrectionAvailable ==>
              var xy := PlanarDistance(c, distance);
              && p.x == xy * rot.cos + c.horizOffsetCorrection * rot.sin
              && p.y == c.horizOffsetCorrection * rot.cos - xy * rot.sin
              && p.z == distance * c.sinVertCorrection + c.vertOffsetCorrection * c.cosVertCorrection
  {
    var ho := c.horizOffsetCorrection;
    var xy0 := PlanarDistance(c, distance);
    var xx := Abs(xy0 * rot.sin - ho * rot.cos);
    var yy := Abs(xy0 * rot.cos + ho * rot.sin);
    var corr := TwoPointCorrection(c, xx, yy);
    var distanceX := distance + corr.0;
    var distanceY := distance + corr.1;
    var x := PlanarDistance(c, distanceX) * rot.sin - ho * rot.cos;
    var y := PlanarDistance(c, distanceY) * rot.cos + ho * rot.sin;
    var z := distanceY * c.sinVertCorrection + c.vertOffsetCorrection * c.cosVertCorrection;
    Position(y, -x, z)
  }

  /** With no mounting offsets, no two-point data and unit angles, the
      projected point lies at exactly `distance` from the origin. */
  lemma ProjectKeepsDistance(c: LaserCorrection, distance: real, rot: Rot)
    requires !c.twoPtCorrectionAvailable
    requires c.horizOffsetCorrection == 0.0 && c.vertOffsetCorrection == 0.0
    requires NormSquared(rot) == 1.0
    requires NormSquared(Rot(c.cosVertCorrection, c.sinVertCorrection)) == 1.0
    ensures var p := Project(c, distance, rot);
            p.x * p.x + p.y * p.y + p.z * p.z == distance * distance
  {
    var p := Project(c, distance, rot);
    var cv, sv := c.cosVertCorrection, c.sinVertCorrection;
    var xy := distance * cv;
    assert p.x == xy * rot.cos && p.y == -(xy * rot.sin) && p.z == distance * sv;
    calc {
      p.x * p.x + p.y * p.y + p.z * p.z;
      xy * xy * (rot.cos * rot.cos + rot.sin * rot.sin) + distance * distance * (sv * sv);
      distance * distance * (cv * cv) + distance * distance * (sv * sv);
      distance * distance * (cv * cv + sv * sv);
      distance * distance;
    }
  }

  /** Reflectivity of the generic decoder before clamping: the raw byte
      plus the focal slope times the distance-dependent focal term. It never
      falls below the raw byte for a non-negative slope. */
  function FocalIntensity(raw: byte, rawDistance: u16, c: LaserCorrection): (v: real)
    ensures c.focalSlope >= 0.0 ==> v >= raw as real
    ensures c.focalSlope == 0.0 ==> v == raw as real
  {
    var f := 1.0 - c.focalDistance / 13100.0;
    var focalOffset := 256.0 * f * f;
    var u := 1.0 - rawDistance as real / 65535.0;
    var term := Abs(focalOffset - 256.0 * u * u);
    assert c.focalSlope >= 0.0 ==> c.focalSlope * term >= 0.0;
    raw as real + c.focalSlope * term
  }

  /** Clamps to the beam's bounds, lower bound first: the result never
      exceeds the upper bound, and a value outside well-ordered bounds
      becomes exactly the bound it violates. */
  function ClampIntensity(v: real, lo: real, hi: real): (r: real)
    ensures r <= hi
    ensures lo <= hi ==> lo <= r <= hi
    ensures lo <= v <= hi ==> r == v
    ensures v < lo && lo <= hi ==> r == lo
    ensures v > hi ==> r == hi
  {
    var low := if v < lo then lo else v;
    if low > hi then hi else low
  }

  /** Clamping twice is clamping once. */
  lemma ClampIdempotent(v: real, lo: real, hi: real)
    ensures ClampIntensity(ClampIntensity(v, lo, hi), lo, hi) == ClampIntensity(v, lo, hi)
  {
  }

  /** The 16-beam decoder's reflectivity code: the elevation of the point
      in whole degrees, shifted by 15 and halved with C integer division.
      Elevations of a real point (-90..90 degrees) give codes -37..52. */
  function ElevationCode(elevationDeg: int): (code: int)
    ensures -90 <= elevationDeg <= 90 ==> -37 <= code <= 52
    ensures elevationDeg >= -15 ==> 2 * code <= elevationDeg + 15 <= 2 * code + 1
    ensures elevationDeg < -15 ==> 2 * code - 1 <= elevationDeg + 15 <= 2 * code
  {
    CHalf(elevationDeg + 15)
  }
}
