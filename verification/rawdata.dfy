/** The decoder's entry point: a calibration of exactly 16 beams selects
    the 16-beam decoder, any other the generic two-bank decoder. */
module RawData {
  import opened Packet
  import opened LaserCalibration
  import opened ViewGate
  import opened Decoding
  import GenericDecoder
  import Vlp16Decoder

  predicate IsVlp16(d: Decoder) {
    d.cal.numLasers == 16
  }

  /** What the selected decoder needs to read the packet. */
  predicate Readable(d: Decoder, p: RawPacket) {
    if IsVlp16(d) then Vlp16Decoder.Readable(d, p) else GenericDecoder.Readable(d, p) && ValidDecoder(d)
  }

  /** `unpack`: the returned time is the packet stamp for the generic
      decoder, and the stamp or 0 for the 16-beam one; a packet never
      yields more than one point per return. */
  function Unpack(d: Decoder, p: RawPacket): (r: Decoded)
    requires Readable(d, p)
    ensures !IsVlp16(d) ==> r.time == p.stamp
    ensures r.time == p.stamp || r.time == 0.0
    ensures |r.points| <= MAX_POINTS
    ensures IsVlp16(d) ==> r == Vlp16Decoder.Unpack(d, p)
    ensures !IsVlp16(d) ==> r == GenericDecoder.Unpack(d, p)
  {
    if IsVlp16(d) then Vlp16Decoder.Unpack(d, p) else GenericDecoder.Unpack(d, p)
  }

  /** Whichever decoder runs, every point it emits passed the range filter
      and has an azimuth inside the configured view. */
  lemma UnpackPointsPassFilters(d: Decoder, p: RawPacket)
    requires Readable(d, p)
    ensures forall pt :: pt in Unpack(d, p).points ==>
              d.pointInRange(pt.distance) && InView(pt.azimuth, d.config.minAngle, d.config.maxAngle)
  {
    if IsVlp16(d) {
      Vlp16Decoder.UnpackPointsPassFilters(d, p);
    } else {
      GenericDecoder.UnpackPointsPassFilters(d, p);
    }
  }
}
