/** What both decoders share: the read-only decoder state, the emitted
    point, the candidate returns a decoder visits in order, the range
    filter that selects which candidates are emitted, and the position
    computation both decoders perform for a return. */
module Decoding {
  import opened Packet
  import opened LaserCalibration
  import opened ViewGate
  import opened Geometry

  /** Everything a decode call reads. `pointInRange` is the range filter
      applied to the corrected distance; `elevationDeg` is the rounded
      elevation angle, in degrees, of an output position (atan2 of z over
      the planar norm); both are supplied by the caller. */
  datatype Decoder = Decoder(
    cal: Calibration,
    tables: RotationTables,
    config: Config,
    pointInRange: real -> bool,
    elevationDeg: (real, real, real) -> int)

  predicate ValidDecoder(d: Decoder) {
    ValidCalibration(d.cal) && ValidTables(d.tables)
  }

  /** One point handed to the sink. */
  datatype Point = Point(x: real, y: real, z: real, ring: int, azimuth: int, distance: real, intensity: real)

  /** A return that passed the angular test: its block, its index within
      the block (0..31, the byte offset is RAW_SCAN_SIZE times it), the
      hardware laser whose correction applies and the azimuth used for the
      angular test and the table lookup. */
  datatype Candidate = Candidate(block: nat, scan: nat, laser: nat, azimuth: int)

  /** Decode order: block first, then return within the block. */
  predicate Before(a: Candidate, b: Candidate) {
    a.block < b.block || (a.block == b.block && a.scan < b.scan)
  }

  predicate Ordered(cs: seq<Candidate>) {
    forall i, j :: 0 <= i < j < |cs| ==> Before(cs[i], cs[j])
  }

  /** Two ordered runs, the first wholly before the second, concatenate
      to an ordered run. */
  lemma OrderedAppend(a: seq<Candidate>, b: seq<Candidate>)
    requires Ordered(a) && Ordered(b)
    requires forall x, y :: x in a && y in b ==> Before(x, y)
    ensures Ordered(a + b)
  {
    var ab := a + b;
    forall i, j | 0 <= i < j < |ab|
      ensures Before(ab[i], ab[j])
    {
      if j < |a| {
        assert ab[i] == a[i] && ab[j] == a[j];
      } else if i >= |a| {
        assert ab[i] == b[i - |a|] && ab[j] == b[j - |a|];
      } else {
        assert ab[i] == a[i] && ab[j] == b[j - |a|];
      }
    }
  }

  /** The tail of an ordered run is ordered and wholly after its head. */
  lemma OrderedTail(cs: seq<Candidate>)
    requires |cs| > 0
    ensures Ordered(cs) ==> Ordered(cs[1..]) && forall c :: c in cs[1..] ==> Before(cs[0], c)
  {
    if Ordered(cs) {
      forall c | c in cs[1..]
        ensures Before(cs[0], c)
      {
        var k :| 0 <= k < |cs[1..]| && cs[1..][k] == c;
        assert cs[k + 1] == c;
      }
    }
  }

  /** A candidate before every one of an ordered run extends it in order. */
  lemma OrderedCons(x: Candidate, rest: seq<Candidate>)
    ensures Ordered(rest) && (forall c :: c in rest ==> Before(x, c)) ==> Ordered([x] + rest)
  {
    if Ordered(rest) && forall c :: c in rest ==> Before(x, c) {
      OrderedAppend([x], rest);
    }
  }

  /** Everything the point computation of `c` reads is in bounds. */
  predicate Addressable(d: Decoder, p: RawPacket, c: Candidate) {
    && c.block < |p.blocks| && WellFormedBlock(p.blocks[c.block])
    && c.scan < SCANS_PER_BLOCK
    && c.laser < |d.cal.laserCorrections|
    && 0 <= c.azimuth < ROTATION_MAX_UNITS
  }

  predicate AllAddressable(d: Decoder, p: RawPacket, cs: seq<Candidate>) {
    forall c :: c in cs ==> Addressable(d, p, c)
  }

  /** Corrected distance of a candidate: what the range filter tests and
      what the point reports. */
  function Distance(d: Decoder, p: RawPacket, c: Candidate): real
    requires Addressable(d, p, c)
  {
    CorrectedDistance(ScanDistance(p.blocks[c.block], c.scan), d.cal.laserCorrections[c.laser])
  }

  /** Output position of a candidate: its corrected distance projected
      along the table rotation at its azimuth, corrected for its laser. */
  function PositionOf(d: Decoder, p: RawPacket, c: Candidate): Position
    requires ValidTables(d.tables) && Addressable(d, p, c)
  {
    var corr := d.cal.laserCorrections[c.laser];
    Project(corr, Distance(d, p, c), CorrectedRotation(d.tables, c.azimuth, corr))
  }

  /** The candidates whose corrected distance passes the range filter, in
      their original order. */
  function Emitted(d: Decoder, p: RawPacket, cs: seq<Candidate>): (es: seq<Candidate>)
    requires AllAddressable(d, p, cs)
    ensures |es| <= |cs|
    ensures forall c :: c in es <==> c in cs && d.pointInRange(Distance(d, p, c))
    ensures Ordered(cs) ==> Ordered(es)
  {
    if |cs| == 0 then []
    else
      assert forall c :: c in cs[1..] ==> c in cs;
      var rest := Emitted(d, p, cs[1..]);
      OrderedTail(cs);
      if d.pointInRange(Distance(d, p, cs[0])) then
        OrderedCons(cs[0], rest);
        [cs[0]] + rest
      else rest
  }

  /** Filtering distributes over concatenation, so candidates can be
      filtered block by block. */
  lemma {:induction false} EmittedAppend(d: Decoder, p: RawPacket, a: seq<Candidate>, b: seq<Candidate>)
    requires AllAddressable(d, p, a) && AllAddressable(d, p, b)
    ensures AllAddressable(d, p, a + b)
    ensures Emitted(d, p, a + b) == Emitted(d, p, a) + Emitted(d, p, b)
    decreases |a|
  {
    if |a| > 0 {
      assert (a + b)[1..] == a[1..] + b;
      EmittedAppend(d, p, a[1..], b);
    } else {
      assert a + b == b;
    }
  }

  /** The range filter reads only the blocks the candidates name. */
  lemma {:induction false} EmittedAgree(d: Decoder, p: RawPacket, q: RawPacket, cs: seq<Candidate>)
    requires AllAddressable(d, p, cs) && AllAddressable(d, q, cs)
    requires forall c :: c in cs ==> p.blocks[c.block] == q.blocks[c.block]
    ensures Emitted(d, p, cs) == Emitted(d, q, cs)
    decreases |cs|
  {
    if |cs| > 0 {
      assert forall c :: c in cs[1..] ==> c in cs;
      assert Distance(d, p, cs[0]) == Distance(d, q, cs[0]);
      EmittedAgree(d, p, q, cs[1..]);
    }
  }

  /** BLOCKS_PER_PACKET * SCANS_PER_BLOCK: at most one point per return. */
  const MAX_POINTS: nat := 384

  /** Result of a decode call: the emitted points, in emission order, and
      the returned time. */
  datatype Decoded = Decoded(points: seq<Point>, time: real)
}
