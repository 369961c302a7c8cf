/** The 16-beam decoder. Every block must carry the upper-bank marker and
    holds two firings of 16 beams; each firing's azimuth is interpolated
    between the block's rotation and the next block's, using the firing
    time within the block. The difference to the next block is threaded
    through the packet's blocks as `last`, starting at 0 on every call. */
module Vlp16Decoder {
  import opened Packet
  import opened LaserCalibration
  import opened ViewGate
  import opened Geometry
  import opened Decoding

  const VLP16_FIRINGS_PER_BLOCK: nat := 2
  const VLP16_SCANS_PER_FIRING: nat := 16
  /** microseconds covered by one block: two firings, 55.296 apart, of
      16 beams, 2.304 apart */
  const VLP16_BLOCK_TDURATION: real := 110.592

  /** Firing (0 or 1) and beam within the firing (0..15) of return `scan`;
      the decoder visits firings in the outer loop and beams in the inner
      one, so `scan` counts returns in that order. */
  function Firing(scan: nat): nat {
    scan / 16
  }

  function Dsr(scan: nat): nat {
    scan % 16
  }

  /** Time of return `scan` after the start of its block: 2.304
      microseconds per beam (VLP16_DSR_TOFFSET) and 55.296 per firing
      (VLP16_FIRING_TOFFSET). */
  function FiringOffset(scan: nat): (t: real)
    requires scan < SCANS_PER_BLOCK
    ensures 0.0 <= t < VLP16_BLOCK_TDURATION
    ensures scan == 0 ==> t == 0.0
  {
    Dsr(scan) as real * 2.304 + Firing(scan) as real * 55.296
  }

  /** The part of a step `diff` elapsed after time `t` of a block (the
      block lasting VLP16_BLOCK_TDURATION): between none and all of it. */
  function Elapsed(diff: real, t: real): (e: real)
    requires 0.0 <= diff && 0.0 <= t < VLP16_BLOCK_TDURATION
    ensures 0.0 <= e <= diff
    ensures t == 0.0 ==> e == 0.0
  {
    var f := t / 110.592;
    var e := diff * t / 110.592;
    assert e == diff * f && 0.0 <= f <= 1.0;
    assert diff * f <= diff * 1.0;
    e
  }

  /** The interpolated azimuth before reduction: the block's rotation plus
      the part of `diff` elapsed at the firing time, rounded. It lies
      between this block's rotation and the rotation `diff` further on. */
  function Interpolated(rotation: u16, diff: int, scan: nat): (n: int)
    requires 0 <= diff && scan < SCANS_PER_BLOCK
    ensures rotation <= n <= rotation + diff
    ensures scan == 0 ==> n == rotation
  {
    var t := FiringOffset(scan);
    var x := rotation as real + Elapsed(diff as real, t);
    RoundBetween(x, rotation as int, rotation + diff);
    Round(x)
  }

  /** The azimuth of a return: the interpolated azimuth reduced by C `%`
      36000, always a valid index of the rotation tables. */
  function AzimuthCorrected(rotation: u16, diff: int, scan: nat): (az: int)
    requires 0 <= diff && scan < SCANS_PER_BLOCK
    ensures 0 <= az < ROTATION_MAX_UNITS
    ensures az == Interpolated(rotation, diff, scan) % 36000
  {
    CRemRotation(Interpolated(rotation, diff, scan))
  }

  /** Rotation change from block `i` to the next one, as a signed int. */
  function RawAzimuthDiff(blocks: seq<Block>, i: nat): int
    requires i + 1 < |blocks|
  {
    blocks[i + 1].rotation - blocks[i].rotation
  }

  /** Outcome of the azimuth-difference step for one block: skip the block,
      or decode it with `diff` (which is also the new `last`). */
  datatype DiffStep = Skip | Use(diff: int)

  /** The azimuth-difference step. A non-negative change to the next block
      is used (reduced modulo 36000); a negative one falls back to `last`
      when that is positive and skips the block otherwise. The last block
      has no successor and reuses `last`. */
  function AzimuthDiffStep(blocks: seq<Block>, i: nat, last: int): (s: DiffStep)
    requires i < |blocks| == BLOCKS_PER_PACKET && 0 <= last
    ensures s.Use? ==> 0 <= s.diff
    ensures i + 1 < |blocks| && RawAzimuthDiff(blocks, i) >= 0 ==>
              s == Use(RawAzimuthDiff(blocks, i) % 36000)
    ensures i + 1 < |blocks| && RawAzimuthDiff(blocks, i) < 0 && last > 0 ==> s == Use(last)
    ensures i + 1 < |blocks| && RawAzimuthDiff(blocks, i) < 0 && last == 0 ==> s == Skip
    ensures i + 1 == |blocks| ==> s == Use(last)
  {
    if i < BLOCKS_PER_PACKET - 1 then
      var raw := RawAzimuthDiff(blocks, i);
      var diff := CRemRotation(36000 + raw);
      if raw < 0 then
        if last > 0 then Use(last) else Skip
      else
        Use(diff)
    else
      Use(last)
  }

  /** Return `scan` of block `i` decoded with azimuth difference `diff`:
      beam Dsr(scan) at its interpolated azimuth. */
  function Slot(b: Block, i: nat, diff: int, scan: nat): (c: Candidate)
    requires 0 <= diff && scan < SCANS_PER_BLOCK
    ensures c.block == i && c.scan == scan && c.laser < VLP16_SCANS_PER_FIRING
    ensures 0 <= c.azimuth < ROTATION_MAX_UNITS
  {
    Candidate(i, scan, Dsr(scan), AzimuthCorrected(b.rotation, diff, scan))
  }

  /** Return `scan` of block `i` is read with calibration entry Dsr(scan)
      at the block's corrected azimuth for that return. */
  lemma SlotIsReturn(b: Block, i: nat, diff: int, scan: nat)
    requires 0 <= diff && scan < SCANS_PER_BLOCK
    ensures var c := Slot(b, i, diff, scan);
            c.laser == Dsr(scan) && c.azimuth == AzimuthCorrected(b.rotation, diff, scan)
  {
  }

  predicate InViewSlot(d: Decoder, c: Candidate) {
    InView(c.azimuth, d.config.minAngle, d.config.maxAngle)
  }

  /** Returns `scan`..31 of a block whose interpolated azimuth passes the
      angular test, in firing-then-beam order. */
  function BlockScans(d: Decoder, b: Block, i: nat, diff: int, scan: nat): (cs: seq<Candidate>)
    requires 0 <= diff && scan <= SCANS_PER_BLOCK
    ensures |cs| <= SCANS_PER_BLOCK - scan
    decreases SCANS_PER_BLOCK - scan
  {
    if scan == SCANS_PER_BLOCK then []
    else
      var c := Slot(b, i, diff, scan);
      var rest := BlockScans(d, b, i, diff, scan + 1);
      if InViewSlot(d, c) then [c] + rest else rest
  }

  /** BlockScans lists returns of block `i` from `scan` on, in order. */
  lemma {:induction false} BlockScansOrdered(d: Decoder, b: Block, i: nat, diff: int, scan: nat)
    requires 0 <= diff && scan <= SCANS_PER_BLOCK
    ensures var cs := BlockScans(d, b, i, diff, scan);
            Ordered(cs) && forall c :: c in cs ==> c.block == i && scan <= c.scan
    decreases SCANS_PER_BLOCK - scan
  {
    if scan < SCANS_PER_BLOCK {
      var c := Slot(b, i, diff, scan);
      BlockScansOrdered(d, b, i, diff, scan + 1);
      if InViewSlot(d, c) {
        OrderedAppend([c], BlockScans(d, b, i, diff, scan + 1));
      }
    }
  }

  /** Every return BlockScans lists is a slot from `scan` on that passes
      the angular test. */
  lemma {:induction false} BlockScansSound(d: Decoder, b: Block, i: nat, diff: int, scan: nat)
    requires 0 <= diff && scan <= SCANS_PER_BLOCK
    ensures forall c :: c in BlockScans(d, b, i, diff, scan) ==>
              scan <= c.scan < SCANS_PER_BLOCK && c == Slot(b, i, diff, c.scan) && InViewSlot(d, c)
    decreases SCANS_PER_BLOCK - scan
  {
    if scan < SCANS_PER_BLOCK {
      BlockScansSound(d, b, i, diff, scan + 1);
    }
  }

  /** Every slot from `scan` on that passes the angular test is listed. */
  lemma {:induction false} BlockScansComplete(d: Decoder, b: Block, i: nat, diff: int, scan: nat)
    requires 0 <= diff && scan <= SCANS_PER_BLOCK
    ensures forall k :: scan <= k < SCANS_PER_BLOCK && InViewSlot(d, Slot(b, i, diff, k)) ==>
              Slot(b, i, diff, k) in BlockScans(d, b, i, diff, scan)
    decreases SCANS_PER_BLOCK - scan
  {
    if scan < SCANS_PER_BLOCK {
      BlockScansComplete(d, b, i, diff, scan + 1);
    }
  }

  /** State threaded through the blocks of one packet: the previous
      azimuth difference, the candidates so far and the time to return. */
  datatype FoldState = FoldState(last: int, cands: seq<Candidate>, time: real)

  /** Blocks `i`..11 of `unpack_vlp16`. A block without the upper-bank
      marker ends the call with the state as it stands; otherwise the
      azimuth-difference step decides whether the block is skipped or
      decoded. The time becomes the packet stamp as soon as any return
      passes the angular test. */
  function Fold(d: Decoder, p: RawPacket, i: nat, st: FoldState): (r: FoldState)
    requires WellFormed(p) && i <= BLOCKS_PER_PACKET && 0 <= st.last
    ensures 0 <= r.last
    ensures |st.cands| <= |r.cands| && r.cands[..|st.cands|] == st.cands
    ensures |r.cands| <= |st.cands| + 32 * (12 - i)
    ensures r.time == if |r.cands| > |st.cands| then p.stamp else st.time
    decreases BLOCKS_PER_PACKET - i
  {
    if i == BLOCKS_PER_PACKET then st
    else if p.blocks[i].header != UPPER_BANK then st
    else
      match AzimuthDiffStep(p.blocks, i, st.last)
      case Skip => Fold(d, p, i + 1, st)
      case Use(diff) =>
        var cs := BlockScans(d, p.blocks[i], i, diff, 0);
        var next := FoldState(diff, st.cands + cs, if |cs| > 0 then p.stamp else st.time);
        assert next.cands[..|st.cands|] == st.cands;
        Fold(d, p, i + 1, next)
  }

  /** Fold state at the start of every call: no previous difference, no
      candidates, time 0. */
  const Initial: FoldState := FoldState(0, [], 0.0)

  function Candidates(d: Decoder, p: RawPacket): seq<Candidate>
    requires WellFormed(p)
  {
    Fold(d, p, 0, Initial).cands
  }

  /** Beam `dsr` of every firing uses calibration entry `dsr`, so the
      decoder reads the first 16 entries. */
  predicate Readable(d: Decoder, p: RawPacket) {
    && ValidDecoder(d)
    && VLP16_SCANS_PER_FIRING <= |d.cal.laserCorrections|
    && WellFormed(p)
  }

  /** ---- A closed form of the fold, used to characterise its output. ---- */

  /** Index of the first block from `i` on without the upper-bank marker,
      or 12 when there is none. */
  function FirstBadHeader(blocks: seq<Block>, i: nat): (bad: nat)
    requires i <= |blocks|
    ensures i <= bad <= |blocks|
    ensures forall j :: i <= j < bad ==> blocks[j].header == UPPER_BANK
    ensures bad < |blocks| ==> blocks[bad].header != UPPER_BANK
    decreases |blocks| - i
  {
    if i == |blocks| || blocks[i].header != UPPER_BANK then i else FirstBadHeader(blocks, i + 1)
  }

  /** The value of `last` when block `i` is reached: the reduced change of
      the latest block before `i` whose change to its successor was
      non-negative, or 0 when there is none. A negative change never alters
      `last`, whether the block was decoded or skipped. */
  function LastDiffBefore(blocks: seq<Block>, i: nat): (last: int)
    requires |blocks| == BLOCKS_PER_PACKET && i <= BLOCKS_PER_PACKET
    ensures 0 <= last < ROTATION_MAX_UNITS
    decreases i
  {
    if i == 0 then 0
    else if i < BLOCKS_PER_PACKET && RawAzimuthDiff(blocks, i - 1) >= 0 then
      RawAzimuthDiff(blocks, i - 1) % 36000
    else LastDiffBefore(blocks, i - 1)
  }

  /** Before the first block, `last` is 0. */
  lemma LastDiffStartsAtZero(blocks: seq<Block>)
    requires |blocks| == BLOCKS_PER_PACKET
    ensures LastDiffBefore(blocks, 0) == 0
  {
  }

  /** Block `i` is skipped exactly when it has a successor, the change to it
      is negative, and no earlier block left a positive `last`. */
  predicate Skipped(blocks: seq<Block>, i: nat)
    requires |blocks| == BLOCKS_PER_PACKET && i < BLOCKS_PER_PACKET
  {
    i + 1 < BLOCKS_PER_PACKET && RawAzimuthDiff(blocks, i) < 0 && LastDiffBefore(blocks, i) == 0
  }

  /** The azimuth difference block `i` is decoded with, when not skipped. */
  function UsedDiff(blocks: seq<Block>, i: nat): (diff: int)
    requires |blocks| == BLOCKS_PER_PACKET && i < BLOCKS_PER_PACKET
    ensures 0 <= diff < ROTATION_MAX_UNITS
  {
    if i + 1 < BLOCKS_PER_PACKET && RawAzimuthDiff(blocks, i) >= 0 then
      RawAzimuthDiff(blocks, i) % 36000
    else LastDiffBefore(blocks, i)
  }

  /** One step of the fold agrees with the closed form. */
  lemma StepClosedForm(blocks: seq<Block>, i: nat)
    requires |blocks| == BLOCKS_PER_PACKET && i < BLOCKS_PER_PACKET
    ensures AzimuthDiffStep(blocks, i, LastDiffBefore(blocks, i))
            == if Skipped(blocks, i) then Skip else Use(UsedDiff(blocks, i))
    ensures i + 1 < BLOCKS_PER_PACKET ==>
              LastDiffBefore(blocks, i + 1)
              == if Skipped(blocks, i) then LastDiffBefore(blocks, i) else UsedDiff(blocks, i)
  {
  }

  /** `c` is return c.scan of a block before the first bad marker that is
      not skipped, decoded with that block's difference, and its azimuth
      passes the angular test. */
  predicate Genuine(d: Decoder, p: RawPacket, c: Candidate)
    requires WellFormed(p)
  {
    && c.block < FirstBadHeader(p.blocks, 0)
    && !Skipped(p.blocks, c.block)
    && c.scan < SCANS_PER_BLOCK
    && c == Slot(p.blocks[c.block], c.block, UsedDiff(p.blocks, c.block), c.scan)
    && InViewSlot(d, c)
  }

  /** The candidates of a decoded block `i` are genuine returns of it. */
  lemma BlockGenuine(d: Decoder, p: RawPacket, i: nat)
    requires WellFormed(p) && i < FirstBadHeader(p.blocks, 0) && !Skipped(p.blocks, i)
    ensures forall c :: c in BlockScans(d, p.blocks[i], i, UsedDiff(p.blocks, i), 0) ==> c.block == i && Genuine(d, p, c)
  {
    BlockScansSound(d, p.blocks[i], i, UsedDiff(p.blocks, i), 0);
  }

  /** Every genuine return of a decoded block `i` is among its candidates. */
  lemma GenuineInBlock(d: Decoder, p: RawPacket, i: nat)
    requires WellFormed(p) && i < FirstBadHeader(p.blocks, 0) && !Skipped(p.blocks, i)
    ensures forall c: Candidate :: c.block == i && Genuine(d, p, c) ==> c in BlockScans(d, p.blocks[i], i, UsedDiff(p.blocks, i), 0)
  {
    BlockScansComplete(d, p.blocks[i], i, UsedDiff(p.blocks, i), 0);
  }

  lemma {:induction false} FoldSound(d: Decoder, p: RawPacket, i: nat, st: FoldState)
    requires WellFormed(p) && i <= FirstBadHeader(p.blocks, 0)
    requires st.last == LastDiffBefore(p.blocks, i)
    requires forall c :: c in st.cands ==> c.block < i && Genuine(d, p, c)
    ensures forall c :: c in Fold(d, p, i, st).cands ==> Genuine(d, p, c)
    decreases BLOCKS_PER_PACKET - i
  {
    if i < FirstBadHeader(p.blocks, 0) {
      StepClosedForm(p.blocks, i);
      if Skipped(p.blocks, i) {
        FoldSound(d, p, i + 1, st);
      } else {
        var diff := UsedDiff(p.blocks, i);
        var cs := BlockScans(d, p.blocks[i], i, diff, 0);
        var next := FoldState(diff, st.cands + cs, if |cs| > 0 then p.stamp else st.time);
        assert Fold(d, p, i, st) == Fold(d, p, i + 1, next);
        BlockGenuine(d, p, i);
        FoldSound(d, p, i + 1, next);
      }
    }
  }

  lemma {:induction false} FoldComplete(d: Decoder, p: RawPacket, i: nat, st: FoldState)
    requires WellFormed(p) && i <= FirstBadHeader(p.blocks, 0)
    requires st.last == LastDiffBefore(p.blocks, i)
    requires forall c: Candidate :: c.block < i && Genuine(d, p, c) ==> c in st.cands
    ensures forall c: Candidate :: Genuine(d, p, c) ==> c in Fold(d, p, i, st).cands
    decreases BLOCKS_PER_PACKET - i
  {
    if i < FirstBadHeader(p.blocks, 0) {
      StepClosedForm(p.blocks, i);
      if Skipped(p.blocks, i) {
        FoldComplete(d, p, i + 1, st);
      } else {
        var diff := UsedDiff(p.blocks, i);
        var cs := BlockScans(d, p.blocks[i], i, diff, 0);
        var next := FoldState(diff, st.cands + cs, if |cs| > 0 then p.stamp else st.time);
        assert Fold(d, p, i, st) == Fold(d, p, i + 1, next);
        GenuineInBlock(d, p, i);
        FoldComplete(d, p, i + 1, next);
      }
    }
  }

  lemma {:induction false} FoldOrdered(d: Decoder, p: RawPacket, i: nat, st: FoldState)
    requires WellFormed(p) && i <= BLOCKS_PER_PACKET && 0 <= st.last
    requires Ordered(st.cands) && forall c :: c in st.cands ==> c.block < i
    ensures Ordered(Fold(d, p, i, st).cands)
    decreases BLOCKS_PER_PACKET - i
  {
    if i < BLOCKS_PER_PACKET && p.blocks[i].header == UPPER_BANK {
      match AzimuthDiffStep(p.blocks, i, st.last)
      case Skip =>
        FoldOrdered(d, p, i + 1, st);
      case Use(diff) =>
        var cs := BlockScans(d, p.blocks[i], i, diff, 0);
        BlockScansOrdered(d, p.blocks[i], i, diff, 0);
        OrderedAppend(st.cands, cs);
        FoldOrdered(d, p, i + 1, FoldState(diff, st.cands + cs, if |cs| > 0 then p.stamp else st.time));
    }
  }

  /** The candidates of a packet, in decode order, are exactly its genuine
      returns: nothing from the first block without the upper-bank marker
      or any later block, nothing from a skipped block, and every return of
      the other blocks whose interpolated azimuth passes the angular test. */
  lemma CandidatesCharacterized(d: Decoder, p: RawPacket)
    requires WellFormed(p)
    ensures var cs := Candidates(d, p);
            && Ordered(cs)
            && forall c :: c in cs <==> Genuine(d, p, c)
  {
    FoldSound(d, p, 0, Initial);
    FoldComplete(d, p, 0, Initial);
    FoldOrdered(d, p, 0, Initial);
  }

  /** Every candidate names a return, a calibration entry and a table
      index the decoder may read. */
  lemma CandidatesAddressable(d: Decoder, p: RawPacket)
    requires Readable(d, p)
    ensures AllAddressable(d, p, Candidates(d, p))
  {
    FoldSound(d, p, 0, Initial);
  }

  /** The point emitted for a candidate: the shared position, the beam's
      ring, the interpolated azimuth, the corrected distance, and in place
      of reflectivity the elevation code of the output position. */
  function Vlp16Point(d: Decoder, p: RawPacket, c: Candidate): (pt: Point)
    requires ValidTables(d.tables) && Addressable(d, p, c)
    ensures var pos := PositionOf(d, p, c);
            && pt.x == pos.x && pt.y == pos.y && pt.z == pos.z
            && pt.azimuth == c.azimuth && pt.distance == Distance(d, p, c)
            && pt.ring == d.cal.laserCorrections[c.laser].laserRing
            && (-90 <= d.elevationDeg(pos.x, pos.y, pos.z) <= 90 ==> -37.0 <= pt.intensity <= 52.0)
  {
    var pos := PositionOf(d, p, c);
    var code := ElevationCode(d.elevationDeg(pos.x, pos.y, pos.z));
    Point(pos.x, pos.y, pos.z, d.cal.laserCorrections[c.laser].laserRing, c.azimuth, Distance(d, p, c), code as real)
  }

  /** In place of reflectivity a 16-beam point carries the elevation code
      of its own output position. */
  lemma Vlp16PointIntensity(d: Decoder, p: RawPacket, c: Candidate)
    requires ValidTables(d.tables) && Addressable(d, p, c)
    ensures var pt := Vlp16Point(d, p, c);
            pt.intensity == ElevationCode(d.elevationDeg(pt.x, pt.y, pt.z)) as real
  {
  }

  /** The points of a run of candidates, one per candidate, in order. */
  function Vlp16Points(d: Decoder, p: RawPacket, cs: seq<Candidate>): seq<Point>
    requires ValidTables(d.tables) && AllAddressable(d, p, cs)
  {
    seq(|cs|, k requires 0 <= k < |cs| => Vlp16Point(d, p, cs[k]))
  }

  /** `unpack_vlp16`: at most 12 * 32 points, and the returned time is the
      packet stamp when some return passed the angular test and 0
      otherwise; in particular it is 0 when the first block is bad. */
  function Unpack(d: Decoder, p: RawPacket): (r: Decoded)
    requires Readable(d, p)
    ensures r.time == p.stamp || r.time == 0.0
    ensures |r.points| > 0 ==> r.time == p.stamp
    ensures |r.points| <= MAX_POINTS
    ensures p.blocks[0].header != UPPER_BANK ==> r == Decoded([], 0.0)
  {
    var st := Fold(d, p, 0, Initial);
    CandidatesAddressable(d, p);
    var es := Emitted(d, p, st.cands);
    Decoded(Vlp16Points(d, p, es), st.time)
  }

  /** The returned time is the packet stamp exactly when the packet has a
      genuine return, and 0 otherwise, even if the range filter then drops
      every point. */
  lemma UnpackTime(d: Decoder, p: RawPacket)
    requires Readable(d, p)
    ensures Unpack(d, p).time == if exists c: Candidate :: Genuine(d, p, c) then p.stamp else 0.0
  {
    var cs := Candidates(d, p);
    CandidatesCharacterized(d, p);
    if exists c: Candidate :: Genuine(d, p, c) {
      var c: Candidate :| Genuine(d, p, c);
      assert c in cs;
    }
  }

  /** The emitted points, in emission order, are those of exactly the
      genuine returns whose corrected distance passes the range filter. */
  lemma EmittedCharacterized(d: Decoder, p: RawPacket)
    requires Readable(d, p)
    ensures AllAddressable(d, p, Candidates(d, p))
    ensures var es := Emitted(d, p, Candidates(d, p));
            && Ordered(es)
            && |Unpack(d, p).points| == |es|
            && (forall k :: 0 <= k < |es| ==> Unpack(d, p).points[k] == Vlp16Point(d, p, es[k]))
            && forall c :: c in es <==> Genuine(d, p, c) && d.pointInRange(Distance(d, p, c))
  {
    CandidatesCharacterized(d, p);
    CandidatesAddressable(d, p);
  }

  /** Every emitted point passed both the angular and the range test. */
  lemma UnpackPointsPassFilters(d: Decoder, p: RawPacket)
    requires Readable(d, p)
    ensures forall pt :: pt in Unpack(d, p).points ==>
              d.pointInRange(pt.distance) && InView(pt.azimuth, d.config.minAngle, d.config.maxAngle)
  {
    CandidatesAddressable(d, p);
    var es := Emitted(d, p, Candidates(d, p));
    var ps := Unpack(d, p).points;
    CandidatesCharacterized(d, p);
    forall k | 0 <= k < |ps|
      ensures d.pointInRange(ps[k].distance) && InView(ps[k].azimuth, d.config.minAngle, d.config.maxAngle)
    {
      assert es[k] in es;
      assert ps[k] == Vlp16Point(d, p, es[k]);
    }
  }

  /** A block with a negative change to its successor never uses the
      wrapped difference: it reuses the positive `last` of an earlier block,
      or is skipped when there is none, and leaves `last` as it was. So a
      first block at 359.00 degrees followed by one at 1.00 degree is
      dropped rather than decoded with the 2.00 degree step. */
  lemma NegativeChangeReusesLast(blocks: seq<Block>, i: nat)
    requires |blocks| == BLOCKS_PER_PACKET && i + 1 < BLOCKS_PER_PACKET
    requires RawAzimuthDiff(blocks, i) < 0
    ensures Skipped(blocks, i) <==> LastDiffBefore(blocks, i) == 0
    ensures !Skipped(blocks, i) ==> UsedDiff(blocks, i) == LastDiffBefore(blocks, i)
    ensures LastDiffBefore(blocks, i + 1) == LastDiffBefore(blocks, i)
  {
  }

  /** The first block is skipped whenever the rotation decreases to the
      second, so no point comes from it. */
  lemma FirstBlockWrapSkipped(d: Decoder, p: RawPacket)
    requires Readable(d, p)
    requires p.blocks[1].rotation < p.blocks[0].rotation
    ensures forall c :: c in Candidates(d, p) ==> c.block != 0
  {
    CandidatesCharacterized(d, p);
  }

  /** Two packets that agree on every block before the first bad marker and
      on that block's marker and rotation decode identically: the bad block
      ends the call and nothing after it is read. */
  lemma {:induction false} FoldPrefix(d: Decoder, p: RawPacket, q: RawPacket, bad: nat, i: nat, st: FoldState)
    requires WellFormed(p) && WellFormed(q) && p.stamp == q.stamp
    requires bad == FirstBadHeader(p.blocks, 0) < BLOCKS_PER_PACKET
    requires forall j :: 0 <= j < bad ==> q.blocks[j] == p.blocks[j]
    requires q.blocks[bad].header == p.blocks[bad].header && q.blocks[bad].rotation == p.blocks[bad].rotation
    requires i <= bad && 0 <= st.last
    ensures Fold(d, p, i, st) == Fold(d, q, i, st)
    decreases bad - i
  {
    if i < bad {
      assert AzimuthDiffStep(p.blocks, i, st.last) == AzimuthDiffStep(q.blocks, i, st.last);
      match AzimuthDiffStep(p.blocks, i, st.last)
      case Skip =>
        FoldPrefix(d, p, q, bad, i + 1, st);
      case Use(diff) =>
        var cs := BlockScans(d, p.blocks[i], i, diff, 0);
        FoldPrefix(d, p, q, bad, i + 1, FoldState(diff, st.cands + cs, if |cs| > 0 then p.stamp else st.time));
    }
  }

  lemma AbandonsRestOfPacket(d: Decoder, p: RawPacket, q: RawPacket)
    requires Readable(d, p) && Readable(d, q) && p.stamp == q.stamp
    requires FirstBadHeader(p.blocks, 0) < BLOCKS_PER_PACKET
    requires var bad := FirstBadHeader(p.blocks, 0);
             && (forall j :: 0 <= j < bad ==> q.blocks[j] == p.blocks[j])
             && q.blocks[bad].header == p.blocks[bad].header
             && q.blocks[bad].rotation == p.blocks[bad].rotation
    ensures Unpack(d, p) == Unpack(d, q)
  {
    var bad := FirstBadHeader(p.blocks, 0);
    FoldPrefix(d, p, q, bad, 0, Initial);
    var cs := Candidates(d, p);
    assert cs == Candidates(d, q);
    CandidatesCharacterized(d, p);
    CandidatesAddressable(d, p);
    CandidatesAddressable(d, q);
    assert forall c :: c in cs ==> p.blocks[c.block] == q.blocks[c.block];
    EmittedAgree(d, p, q, cs);
    var es := Emitted(d, p, cs);
    forall k | 0 <= k < |es|
      ensures Vlp16Point(d, p, es[k]) == Vlp16Point(d, q, es[k])
    {
      assert es[k] in cs;
      assert Distance(d, p, es[k]) == Distance(d, q, es[k]);
    }
  }
}
