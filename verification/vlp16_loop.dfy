/** `unpack_vlp16` as the nested loops it is written as: a byte offset `k`
    advanced by RAW_SCAN_SIZE per return, `continue` for a skipped block
    and an early return at the first bad marker. It emits the points and
    sets the time as it goes, and ends with exactly the result of the
    functional decoder. */
module Vlp16Loop {
  import opened Packet
  import opened LaserCalibration
  import opened ViewGate
  import opened Geometry
  import opened Decoding
  import opened Vlp16Decoder

  /** The points of two runs of candidates are the points of each run, joined. */
  lemma Vlp16PointsAppend(d: Decoder, p: RawPacket, a: seq<Candidate>, b: seq<Candidate>)
    requires ValidTables(d.tables) && AllAddressable(d, p, a) && AllAddressable(d, p, b)
    ensures AllAddressable(d, p, a + b)
    ensures Vlp16Points(d, p, a + b) == Vlp16Points(d, p, a) + Vlp16Points(d, p, b)
  {
    var ab := a + b;
    assert forall k :: 0 <= k < |ab| ==> ab[k] == if k < |a| then a[k] else b[k - |a|];
  }

  /** Beam `dsr` of firing `firing` is return scan0 + dsr, where scan0 is
      the first return of the firing. */
  lemma LoopScan(firing: nat, dsr: nat, scan: nat)
    requires firing < VLP16_FIRINGS_PER_BLOCK && dsr < VLP16_SCANS_PER_FIRING
    requires scan == 16 * firing + dsr
    ensures Firing(scan) == firing && Dsr(scan) == dsr
  {
    if firing == 0 {
      assert scan == dsr;
    } else {
      assert scan == VLP16_SCANS_PER_FIRING + dsr;
    }
  }

  /** The loop's azimuth expression, at the firing offset of `scan`, is the
      corrected azimuth of that return. */
  lemma LoopAzimuth(rotation: u16, diff: int, offset: real, scan: nat)
    requires 0 <= diff && scan < SCANS_PER_BLOCK && offset == FiringOffset(scan)
    ensures CRemRotation(Round(rotation as real + diff as real * offset / 110.592))
            == AzimuthCorrected(rotation, diff, scan)
  {
    assert Interpolated(rotation, diff, scan) == Round(rotation as real + diff as real * offset / 110.592);
  }

  /** Adding the candidate of return `scan`, if it passes the angular
      test, advances a prefix of the block's candidate list by one return. */
  lemma ScansStep(d: Decoder, b: Block, i: nat, diff: int, scan: nat,
                  added: seq<Candidate>, one: seq<Candidate>, whole: seq<Candidate>)
    requires 0 <= diff && scan < SCANS_PER_BLOCK
    requires added + BlockScans(d, b, i, diff, scan) == whole
    requires one == if InViewSlot(d, Slot(b, i, diff, scan)) then [Slot(b, i, diff, scan)] else []
    ensures (added + one) + BlockScans(d, b, i, diff, scan + 1) == whole
  {
    assert BlockScans(d, b, i, diff, scan) == one + BlockScans(d, b, i, diff, scan + 1);
    AppendAssociative(added, one, BlockScans(d, b, i, diff, scan + 1));
  }

  /** Regrouping a concatenation of three sequences. */
  lemma AppendAssociative<T>(a: seq<T>, b: seq<T>, c: seq<T>)
    ensures (a + b) + c == a + (b + c)
  {
  }

  /** The candidate the loop builds for return `scan`: the slot of that
      return, with the azimuth computed from the two loop counters. */
  method ReturnCandidate(b: Block, block: nat, diff: int, firing: nat, dsr: nat, scan: nat) returns (c: Candidate)
    requires 0 <= diff && scan < SCANS_PER_BLOCK && Firing(scan) == firing && Dsr(scan) == dsr
    ensures c == Slot(b, block, diff, scan)
  {
    var offset := dsr as real * 2.304 + firing as real * 55.296;
    var azimuthCorrected := CRemRotation(Round(b.rotation as real + diff as real * offset / 110.592));
    LoopAzimuth(b.rotation, diff, offset, scan);
    c := Candidate(block, scan, dsr, azimuthCorrected);
  }

  /** Emitting the points of two runs of candidates one after the other
      emits the points of the joined run. */
  lemma EmitJoin(d: Decoder, p: RawPacket, a: seq<Candidate>, b: seq<Candidate>)
    requires ValidTables(d.tables) && AllAddressable(d, p, a) && AllAddressable(d, p, b)
    ensures AllAddressable(d, p, a + b)
    ensures Vlp16Points(d, p, Emitted(d, p, a + b))
            == Vlp16Points(d, p, Emitted(d, p, a)) + Vlp16Points(d, p, Emitted(d, p, b))
  {
    EmittedAppend(d, p, a, b);
    Vlp16PointsAppend(d, p, Emitted(d, p, a), Emitted(d, p, b));
  }

  /** Return `scan`, which is beam `dsr` of firing `firing`, read at byte
      offset `k`. When its azimuth passes the angular test it is added,
      the time becomes the stamp, and its point is emitted if its distance
      passes the range filter; otherwise nothing changes. */
  method DecodeReturn(d: Decoder, p: RawPacket, block: nat, diff: int, firing: nat, dsr: nat, scan: nat, k: nat,
                      points0: seq<Point>, time0: real)
    returns (ghost added: seq<Candidate>, points: seq<Point>, time: real)
    requires Readable(d, p) && block < BLOCKS_PER_PACKET && 0 <= diff
    requires scan < SCANS_PER_BLOCK && Firing(scan) == firing && Dsr(scan) == dsr
    requires k == 3 * scan
    ensures var c := Slot(p.blocks[block], block, diff, scan);
            added == if InViewSlot(d, c) then [c] else []
    ensures AllAddressable(d, p, added)
    ensures time == if |added| > 0 then p.stamp else time0
    ensures points == points0 + Vlp16Points(d, p, Emitted(d, p, added))
    ensures var c := Slot(p.blocks[block], block, diff, scan);
            && time == (if InViewSlot(d, c) then p.stamp else time0)
            && points == points0 + (if InViewSlot(d, c) && d.pointInRange(Distance(d, p, c)) then [Vlp16Point(d, p, c)] else [])
  {
    var b := p.blocks[block];
    added, points, time := [], points0, time0;
    var corrections := d.cal.laserCorrections[dsr];
    var tmp := DecodeU16(b.data[k], b.data[k + 1]);
    var c := ReturnCandidate(b, block, diff, firing, dsr, scan);
    if InView(c.azimuth, d.config.minAngle, d.config.maxAngle) {
      time := p.stamp;
      var distance := CorrectedDistance(tmp, corrections);
      assert distance == Distance(d, p, c);
      added := [c];
      if d.pointInRange(distance) {
        points := points + [Vlp16Point(d, p, c)];
      }
    }
  }

  /** Decoding returns 0..`to` - 1 of a block took the output from
      `points0` to `points` and the time from `time0` to `time`: `added`
      is the block's candidate list up to `to`, their in-range points were
      appended in order, and the time became the stamp exactly when a
      return passed the angular test. */
  ghost predicate Progress(d: Decoder, p: RawPacket, block: nat, diff: int, to: nat,
                           added: seq<Candidate>, points0: seq<Point>, points: seq<Point>, time0: real, time: real)
    requires block < |p.blocks| && 0 <= diff && to <= SCANS_PER_BLOCK
  {
    && ValidTables(d.tables)
    && added + BlockScans(d, p.blocks[block], block, diff, to) == BlockScans(d, p.blocks[block], block, diff, 0)
    && AllAddressable(d, p, added)
    && time == (if |added| > 0 then p.stamp else time0)
    && points == points0 + Vlp16Points(d, p, Emitted(d, p, added))
  }

  /** Nothing decoded yet. */
  lemma ProgressEmpty(d: Decoder, p: RawPacket, block: nat, diff: int, points: seq<Point>, time: real)
    requires Readable(d, p) && block < BLOCKS_PER_PACKET && 0 <= diff
    ensures Progress(d, p, block, diff, 0, [], points, points, time, time)
  {
    assert points + Vlp16Points(d, p, Emitted(d, p, [])) == points;
  }

  /** Handling return `scan` as DecodeReturn does extends the progress by
      that return. */
  lemma ProgressStep(d: Decoder, p: RawPacket, block: nat, diff: int, scan: nat,
                     added: seq<Candidate>, one: seq<Candidate>,
                     points0: seq<Point>, points: seq<Point>, points1: seq<Point>, time0: real, time: real, time1: real)
    requires Readable(d, p) && block < BLOCKS_PER_PACKET && 0 <= diff && scan < SCANS_PER_BLOCK
    requires Progress(d, p, block, diff, scan, added, points0, points, time0, time)
    requires var c := Slot(p.blocks[block], block, diff, scan);
             one == if InViewSlot(d, c) then [c] else []
    requires AllAddressable(d, p, one)
    requires time1 == if |one| > 0 then p.stamp else time
    requires points1 == points + Vlp16Points(d, p, Emitted(d, p, one))
    ensures Progress(d, p, block, diff, scan + 1, added + one, points0, points1, time0, time1)
  {
    var b := p.blocks[block];
    ScansStep(d, b, block, diff, scan, added, one, BlockScans(d, b, block, diff, 0));
    EmitJoin(d, p, added, one);
    AppendAssociative(points0, Vlp16Points(d, p, Emitted(d, p, added)), Vlp16Points(d, p, Emitted(d, p, one)));
  }

  /** Return `dsr` of firing `firing`, read at byte offset `k`, extends
      the block's progress by one return; the return index and the byte
      offset come back advanced past it, as the inner loop advances them. */
  method ReturnStep(d: Decoder, p: RawPacket, block: nat, diff: int, firing: nat, dsr: nat, scan: nat, k: nat,
                    ghost added0: seq<Candidate>, ghost points0: seq<Point>, ghost time0: real,
                    pointsIn: seq<Point>, timeIn: real)
    returns (ghost added: seq<Candidate>, points: seq<Point>, time: real, next: nat, nextK: nat)
    requires Readable(d, p) && block < BLOCKS_PER_PACKET && 0 <= diff
    requires firing < VLP16_FIRINGS_PER_BLOCK && dsr < VLP16_SCANS_PER_FIRING && scan == 16 * firing + dsr && k == 3 * scan
    requires Progress(d, p, block, diff, scan, added0, points0, pointsIn, time0, timeIn)
    ensures next == scan + 1 && nextK == 3 * next
    ensures Progress(d, p, block, diff, next, added, points0, points, time0, time)
  {
    next, nextK := scan + 1, k + RAW_SCAN_SIZE;
    LoopScan(firing, dsr, scan);
    ghost var one;
    one, points, time := DecodeReturn(d, p, block, diff, firing, dsr, scan, k, pointsIn, timeIn);
    ProgressStep(d, p, block, diff, scan, added0, one, points0, pointsIn, points, time0, timeIn, time);
    added := added0 + one;
  }

  /** The 16 beams of firing `firing`, the block's returns from `scan0`
      on, read from byte offset `k0` on; `scan` and `k` come back advanced
      past the firing, as the shared counters of the two loops are. The
      block's progress, from its start at `points0` and `time0`, extends
      over the firing. */
  method DecodeFiring(d: Decoder, p: RawPacket, block: nat, diff: int, firing: nat, scan0: nat, k0: nat,
                      ghost added0: seq<Candidate>, ghost points0: seq<Point>, ghost time0: real,
                      pointsIn: seq<Point>, timeIn: real)
    returns (ghost added: seq<Candidate>, points: seq<Point>, time: real, scan: nat, k: nat)
    requires Readable(d, p) && block < BLOCKS_PER_PACKET && 0 <= diff
    requires firing < VLP16_FIRINGS_PER_BLOCK && scan0 == 16 * firing && k0 == 3 * scan0
    requires Progress(d, p, block, diff, scan0, added0, points0, pointsIn, time0, timeIn)
    ensures scan == scan0 + 16 && k == 3 * scan
    ensures Progress(d, p, block, diff, scan, added, points0, points, time0, time)
  {
    added, points, time := added0, pointsIn, timeIn;
    scan, k := scan0, k0;
    var dsr := 0;
    while dsr < VLP16_SCANS_PER_FIRING
      invariant dsr <= VLP16_SCANS_PER_FIRING
      invariant scan == scan0 + dsr && k == 3 * scan
      invariant Progress(d, p, block, diff, scan, added, points0, points, time0, time)
    {
      added, points, time, scan, k := ReturnStep(d, p, block, diff, firing, dsr, scan, k, added, points0, time0, points, time);
      dsr := dsr + 1;
    }
  }

  /** The two firings of one decoded block: exactly the block's candidates
      are added, their in-range points emitted in order, and the time set
      to the stamp when any return passes the angular test. */
  method DecodeBlock(d: Decoder, p: RawPacket, block: nat, diff: int, points0: seq<Point>, time0: real)
    returns (ghost added: seq<Candidate>, points: seq<Point>, time: real)
    requires Readable(d, p) && block < BLOCKS_PER_PACKET && 0 <= diff
    ensures added == BlockScans(d, p.blocks[block], block, diff, 0)
    ensures AllAddressable(d, p, added)
    ensures var cs := BlockScans(d, p.blocks[block], block, diff, 0);
            && time == (if |cs| > 0 then p.stamp else time0)
            && points == points0 + Vlp16Points(d, p, Emitted(d, p, cs))
  {
    added, points, time := [], points0, time0;
    ProgressEmpty(d, p, block, diff, points0, time0);
    var firing, scan, k := 0, 0, 0;
    while firing < VLP16_FIRINGS_PER_BLOCK
      invariant firing <= VLP16_FIRINGS_PER_BLOCK && scan == 16 * firing && k == 3 * scan
      invariant Progress(d, p, block, diff, scan, added, points0, points, time0, time)
    {
      added, points, time, scan, k := DecodeFiring(d, p, block, diff, firing, scan, k, added, points0, time0, points, time);
      firing := firing + 1;
    }
    assert BlockScans(d, p.blocks[block], block, diff, scan) == [];
    assert added + [] == added;
  }

  /** The azimuth-difference step as the loop body writes it: the C
      remainder of 36000 plus the raw change, replaced by `last` or a skip
      when the change is negative, and `last` itself for the last block. */
  method BlockDiff(p: RawPacket, block: nat, last: int) returns (skip: bool, diff: int)
    requires WellFormed(p) && block < BLOCKS_PER_PACKET && 0 <= last
    ensures AzimuthDiffStep(p.blocks, block, last) == if skip then Skip else Use(diff)
  {
    skip := false;
    if block < BLOCKS_PER_PACKET - 1 {
      var raw := p.blocks[block + 1].rotation - p.blocks[block].rotation;
      diff := CRemRotation(36000 + raw);
      if raw < 0 {
        if last > 0 {
          diff := last;
        } else {
          skip := true;
        }
      }
    } else {
      diff := last;
    }
  }

  /** A block the azimuth-difference step decodes with `diff`: decoding it
      advances the fold by one block and keeps the emitted points those of
      the candidates gathered so far. */
  method UseBlock(d: Decoder, p: RawPacket, block: nat, last: int, diff: int,
                  ghost cands0: seq<Candidate>, points0: seq<Point>, time0: real)
    returns (ghost cands: seq<Candidate>, points: seq<Point>, time: real)
    requires Readable(d, p) && block < BLOCKS_PER_PACKET && 0 <= last
    requires p.blocks[block].header == UPPER_BANK && AzimuthDiffStep(p.blocks, block, last) == Use(diff)
    requires AllAddressable(d, p, cands0) && points0 == Vlp16Points(d, p, Emitted(d, p, cands0))
    ensures Fold(d, p, block, FoldState(last, cands0, time0)) == Fold(d, p, block + 1, FoldState(diff, cands, time))
    ensures AllAddressable(d, p, cands) && points == Vlp16Points(d, p, Emitted(d, p, cands))
  {
    ghost var added;
    added, points, time := DecodeBlock(d, p, block, diff, points0, time0);
    EmitJoin(d, p, cands0, added);
    cands := cands0 + added;
  }

  /** One pass of the block loop: a block without the upper-bank marker
      stops the call with the state as it stands; otherwise the block is
      skipped or decoded, advancing the fold by one block. */
  method BlockStep(d: Decoder, p: RawPacket, block: nat, last0: int,
                   ghost cands0: seq<Candidate>, points0: seq<Point>, time0: real)
    returns (stop: bool, last: int, ghost cands: seq<Candidate>, points: seq<Point>, time: real)
    requires Readable(d, p) && block < BLOCKS_PER_PACKET && 0 <= last0
    requires AllAddressable(d, p, cands0) && points0 == Vlp16Points(d, p, Emitted(d, p, cands0))
    ensures stop <==> p.blocks[block].header != UPPER_BANK
    ensures stop ==> Fold(d, p, block, FoldState(last0, cands0, time0)) == FoldState(last0, cands0, time0)
    ensures stop ==> last == last0 && cands == cands0 && points == points0 && time == time0
    ensures 0 <= last
    ensures !stop ==> Fold(d, p, block, FoldState(last0, cands0, time0)) == Fold(d, p, block + 1, FoldState(last, cands, time))
    ensures AllAddressable(d, p, cands) && points == Vlp16Points(d, p, Emitted(d, p, cands))
  {
    stop, last, cands, points, time := false, last0, cands0, points0, time0;
    if p.blocks[block].header != UPPER_BANK {
      stop := true;
      return;
    }
    var skip, diff := BlockDiff(p, block, last0);
    if !skip {
      cands, points, time := UseBlock(d, p, block, last0, diff, cands0, points0, time0);
      last := diff;
    }
  }

  /** `unpack_vlp16` as written: the points and time it produces are those
      of the functional decoder. */
  method UnpackLoop(d: Decoder, p: RawPacket) returns (points: seq<Point>, time: real)
    requires Readable(d, p)
    ensures Decoded(points, time) == Unpack(d, p)
  {
    ghost var final := Fold(d, p, 0, Initial);
    time := 0.0;
    var last := 0;
    ghost var cands: seq<Candidate> := [];
    points := [];
    var block := 0;
    while block < BLOCKS_PER_PACKET
      invariant block <= BLOCKS_PER_PACKET && 0 <= last
      invariant Fold(d, p, block, FoldState(last, cands, time)) == final
      invariant AllAddressable(d, p, cands)
      invariant points == Vlp16Points(d, p, Emitted(d, p, cands))
    {
      var stop;
      stop, last, cands, points, time := BlockStep(d, p, block, last, cands, points, time);
      if stop {
        return;
      }
      block := block + 1;
    }
  }
}
