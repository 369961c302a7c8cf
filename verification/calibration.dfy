/** Per-beam calibration and the rotation lookup tables. Both are built once
    at setup (by code outside this model) and only read by the decoders. */
module LaserCalibration {
  import opened Packet

  /** Correction parameters of one emitter/detector pair. The sines and
      cosines are the precomputed values of the vertical and rotational
      correction angles. */
  datatype LaserCorrection = LaserCorrection(
    distCorrection: real,
    distCorrectionX: real,
    distCorrectionY: real,
    twoPtCorrectionAvailable: bool,
    cosVertCorrection: real,
    sinVertCorrection: real,
    cosRotCorrection: real,
    sinRotCorrection: real,
    horizOffsetCorrection: real,
    vertOffsetCorrection: real,
    focalDistance: real,
    focalSlope: real,
    minIntensity: real,
    maxIntensity: real,
    laserRing: int)

  /** The loaded table, indexed by hardware laser number. */
  datatype Calibration = Calibration(numLasers: int, laserCorrections: seq<LaserCorrection>)

  predicate ValidCalibration(cal: Calibration) {
    0 < cal.numLasers == |cal.laserCorrections|
  }

  /** cos and sin of every rotation step of 0.01 degrees; the values
      themselves are left uninterpreted. */
  datatype RotationTables = RotationTables(cosRot: seq<real>, sinRot: seq<real>)

  predicate ValidTables(t: RotationTables) {
    |t.cosRot| == ROTATION_MAX_UNITS && |t.sinRot| == ROTATION_MAX_UNITS
  }
}
