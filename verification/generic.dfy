/** The generic (two-bank, up to 64 beams) decoder: every block carries 32
    returns of either the upper bank (lasers 0..31) or the lower bank
    (lasers 32..63), all sharing the block's raw rotation. */
module GenericDecoder {
  import opened Packet
  import opened LaserCalibration
  import opened ViewGate
  import opened Geometry
  import opened Decoding

  /** Beam-index offset of a block. Only the lower-bank marker moves the
      origin; every other marker value, valid or not, is decoded as the
      upper bank. */
  function BankOrigin(header: u16): (origin: nat)
    ensures origin == 0 || origin == SCANS_PER_BLOCK
    ensures origin == SCANS_PER_BLOCK <==> header == LOWER_BANK
  {
    if header == LOWER_BANK then SCANS_PER_BLOCK else 0
  }

  /** Hardware laser number of return `scan` of a block: below 64, in the
      lower half exactly for lower-bank blocks, and congruent to `scan`. */
  function LaserNumber(header: u16, scan: nat): (laser: nat)
    requires scan < SCANS_PER_BLOCK
    ensures laser < 2 * SCANS_PER_BLOCK
    ensures laser % SCANS_PER_BLOCK == scan
    ensures laser >= SCANS_PER_BLOCK <==> header == LOWER_BANK
  {
    scan + BankOrigin(header)
  }

  predicate InViewBlock(d: Decoder, b: Block) {
    InView(b.rotation, d.config.minAngle, d.config.maxAngle)
  }

  /** What decoding a block reads is in bounds: the calibration has an
      entry for every laser the block's bank names, and a block that passes
      the angular test has a rotation the lookup tables cover. */
  predicate BlockReadable(d: Decoder, b: Block) {
    && WellFormedBlock(b)
    && BankOrigin(b.header) + SCANS_PER_BLOCK <= |d.cal.laserCorrections|
    && (InViewBlock(d, b) ==> b.rotation < ROTATION_MAX_UNITS)
  }

  predicate Readable(d: Decoder, p: RawPacket) {
    && WellFormed(p)
    && forall i :: 0 <= i < |p.blocks| ==> BlockReadable(d, p.blocks[i])
  }

  /** Return `scan` of block `i`: decoded with the laser its bank names,
      at the block's raw rotation. */
  function Slot(b: Block, i: nat, scan: nat): (c: Candidate)
    requires scan < SCANS_PER_BLOCK
    ensures c.block == i && c.scan == scan
    ensures c.laser == LaserNumber(b.header, scan) && c.azimuth == b.rotation
  {
    Candidate(i, scan, LaserNumber(b.header, scan), b.rotation)
  }

  /** The point emitted for a candidate: the shared position, the laser's
      ring, the raw rotation as azimuth, the corrected distance, and the
      focal-corrected raw reflectivity clamped to the laser's bounds. */
  function GenericPoint(d: Decoder, p: RawPacket, c: Candidate): (pt: Point)
    requires ValidTables(d.tables) && Addressable(d, p, c)
    ensures var corr := d.cal.laserCorrections[c.laser];
            && pt.azimuth == c.azimuth && pt.distance == Distance(d, p, c)
            && pt.ring == corr.laserRing
            && pt.intensity <= corr.maxIntensity
            && (corr.minIntensity <= corr.maxIntensity ==> corr.minIntensity <= pt.intensity)
  {
    var corr := d.cal.laserCorrections[c.laser];
    var b := p.blocks[c.block];
    var pos := PositionOf(d, p, c);
    var intensity := ClampIntensity(FocalIntensity(ScanIntensity(b, c.scan), ScanDistance(b, c.scan), corr),
                                    corr.minIntensity, corr.maxIntensity);
    Point(pos.x, pos.y, pos.z, corr.laserRing, c.azimuth, Distance(d, p, c), intensity)
  }

  /** A generic point sits at the shared output position of its candidate,
      as a 16-beam point does. */
  lemma GenericPointPosition(d: Decoder, p: RawPacket, c: Candidate)
    requires ValidTables(d.tables) && Addressable(d, p, c)
    ensures var pt, pos := GenericPoint(d, p, c), PositionOf(d, p, c);
            pt.x == pos.x && pt.y == pos.y && pt.z == pos.z
  {
  }

  /** The points of a run of candidates, one per candidate, in order. */
  function GenericPoints(d: Decoder, p: RawPacket, cs: seq<Candidate>): seq<Point>
    requires ValidTables(d.tables) && AllAddressable(d, p, cs)
  {
    seq(|cs|, k requires 0 <= k < |cs| => GenericPoint(d, p, cs[k]))
  }

  /** Returns `scan`..31 of block `i` that pass the angular test: all of
      them or none, since the test reads only the block's rotation. */
  function BlockScans(d: Decoder, b: Block, i: nat, scan: nat): (cs: seq<Candidate>)
    requires ValidTables(d.tables) && BlockReadable(d, b) && scan <= SCANS_PER_BLOCK
    ensures |cs| == if InViewBlock(d, b) then SCANS_PER_BLOCK - scan else 0
    ensures forall k :: 0 <= k < |cs| ==> InViewBlock(d, b) && cs[k] == Slot(b, i, scan + k)
    decreases SCANS_PER_BLOCK - scan
  {
    if scan == SCANS_PER_BLOCK then []
    else
      var rest := BlockScans(d, b, i, scan + 1);
      if InViewBlock(d, b) then [Slot(b, i, scan)] + rest else rest
  }

  /** Candidates of blocks `i`..11, in decode order. */
  function Blocks(d: Decoder, p: RawPacket, i: nat): (cs: seq<Candidate>)
    requires ValidDecoder(d) && Readable(d, p) && i <= BLOCKS_PER_PACKET
    ensures |cs| <= 32 * (12 - i)
    decreases BLOCKS_PER_PACKET - i
  {
    if i == BLOCKS_PER_PACKET then []
    else BlockScans(d, p.blocks[i], i, 0) + Blocks(d, p, i + 1)
  }

  /** `c` is the point of some return of the packet that passes the
      angular test. */
  predicate Genuine(d: Decoder, p: RawPacket, c: Candidate)
    requires ValidDecoder(d) && Readable(d, p)
  {
    && c.block < BLOCKS_PER_PACKET && c.scan < SCANS_PER_BLOCK
    && InViewBlock(d, p.blocks[c.block])
    && c == Slot(p.blocks[c.block], c.block, c.scan)
  }

  /** The candidates of block `i` are, in order, its genuine returns, and
      the decoder can read each of them. */
  lemma BlockHead(d: Decoder, p: RawPacket, i: nat)
    requires ValidDecoder(d) && Readable(d, p) && i < BLOCKS_PER_PACKET
    ensures var head := BlockScans(d, p.blocks[i], i, 0);
            && Ordered(head)
            && (forall c :: c in head ==> c.block == i && Genuine(d, p, c) && Addressable(d, p, c))
            && forall c: Candidate :: c.block == i && Genuine(d, p, c) ==> c in head
  {
    var head := BlockScans(d, p.blocks[i], i, 0);
    assert BlockReadable(d, p.blocks[i]);
    forall c | c in head
      ensures c.block == i && Genuine(d, p, c) && Addressable(d, p, c)
    {
      var k :| 0 <= k < |head| && head[k] == c;
    }
    forall c: Candidate | c.block == i && Genuine(d, p, c)
      ensures c in head
    {
      assert head[c.scan] == c;
    }
  }

  /** Every candidate of blocks `i`..11 is a genuine return of one of them. */
  lemma {:induction false} BlocksSound(d: Decoder, p: RawPacket, i: nat)
    requires ValidDecoder(d) && Readable(d, p) && i <= BLOCKS_PER_PACKET
    ensures forall c :: c in Blocks(d, p, i) ==> i <= c.block && Genuine(d, p, c) && Addressable(d, p, c)
    decreases BLOCKS_PER_PACKET - i
  {
    if i < BLOCKS_PER_PACKET {
      BlockHead(d, p, i);
      BlocksSound(d, p, i + 1);
    }
  }

  /** Every genuine return of blocks `i`..11 is among their candidates. */
  lemma {:induction false} BlocksComplete(d: Decoder, p: RawPacket, i: nat)
    requires ValidDecoder(d) && Readable(d, p) && i <= BLOCKS_PER_PACKET
    ensures forall c: Candidate :: i <= c.block && Genuine(d, p, c) ==> c in Blocks(d, p, i)
    decreases BLOCKS_PER_PACKET - i
  {
    if i < BLOCKS_PER_PACKET {
      BlockHead(d, p, i);
      BlocksComplete(d, p, i + 1);
    }
  }

  /** The candidates of blocks `i`..11 come in decode order. */
  lemma {:induction false} BlocksOrdered(d: Decoder, p: RawPacket, i: nat)
    requires ValidDecoder(d) && Readable(d, p) && i <= BLOCKS_PER_PACKET
    ensures var cs := Blocks(d, p, i);
            Ordered(cs) && forall c :: c in cs ==> i <= c.block
    decreases BLOCKS_PER_PACKET - i
  {
    if i < BLOCKS_PER_PACKET {
      BlockHead(d, p, i);
      BlocksOrdered(d, p, i + 1);
      OrderedAppend(BlockScans(d, p.blocks[i], i, 0), Blocks(d, p, i + 1));
    }
  }

  function Candidates(d: Decoder, p: RawPacket): (cs: seq<Candidate>)
    requires ValidDecoder(d) && Readable(d, p)
    ensures AllAddressable(d, p, cs)
  {
    BlocksSound(d, p, 0);
    Blocks(d, p, 0)
  }

  /** The candidates of a packet are, in decode order, exactly its genuine
      returns, and the decoder can read each of them. */
  lemma CandidatesCharacterized(d: Decoder, p: RawPacket)
    requires ValidDecoder(d) && Readable(d, p)
    ensures var cs := Candidates(d, p);
            && Ordered(cs)
            && forall c :: c in cs <==> Genuine(d, p, c) && Addressable(d, p, c)
  {
    BlocksSound(d, p, 0);
    BlocksComplete(d, p, 0);
    BlocksOrdered(d, p, 0);
  }

  /** `unpack` for a calibration that is not the 16-beam one: at most
      12 * 32 points, each of which passed both the angular and the range
      test, and the packet stamp as the returned time. */
  function Unpack(d: Decoder, p: RawPacket): (r: Decoded)
    requires ValidDecoder(d) && Readable(d, p)
    ensures r.time == p.stamp
    ensures |r.points| <= MAX_POINTS
  {
    var cs := Candidates(d, p);
    var es := Emitted(d, p, cs);
    Decoded(GenericPoints(d, p, es), p.stamp)
  }

  /** Every emitted point passed both the angular and the range test. */
  lemma UnpackPointsPassFilters(d: Decoder, p: RawPacket)
    requires ValidDecoder(d) && Readable(d, p)
    ensures forall pt :: pt in Unpack(d, p).points ==>
              d.pointInRange(pt.distance) && InView(pt.azimuth, d.config.minAngle, d.config.maxAngle)
  {
    var cs := Candidates(d, p);
    var es := Emitted(d, p, cs);
    var ps := Unpack(d, p).points;
    BlocksSound(d, p, 0);
    forall k | 0 <= k < |ps|
      ensures d.pointInRange(ps[k].distance) && InView(ps[k].azimuth, d.config.minAngle, d.config.maxAngle)
    {
      assert es[k] in es;
      assert ps[k] == GenericPoint(d, p, es[k]);
    }
  }

  /** The emitted returns, in emission order, are exactly the (block,
      return) pairs whose block rotation passes the angular test and whose
      corrected distance passes the range test; the block marker plays no
      part beyond choosing the bank, so an unrecognised marker is decoded
      as the upper bank. */
  lemma EmittedCharacterized(d: Decoder, p: RawPacket)
    requires ValidDecoder(d) && Readable(d, p)
    ensures var es := Emitted(d, p, Candidates(d, p));
            && Ordered(es)
            && |Unpack(d, p).points| == |es|
            && (forall k :: 0 <= k < |es| ==> Unpack(d, p).points[k] == GenericPoint(d, p, es[k]))
            && forall c :: c in es <==> Genuine(d, p, c) && Addressable(d, p, c) && d.pointInRange(Distance(d, p, c))
  {
    CandidatesCharacterized(d, p);
  }
}
