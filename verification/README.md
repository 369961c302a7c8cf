# Velodyne raw packet decoder (`RawData`), modelled in Dafny

This project models the packet-decoding core of the `vl_lidar_driver`, which is the class `RawData` in
`src/drivers/vl_lidar_driver/src/rawdata.cc`. A packet has 12 blocks. Each block holds:

- a 2-byte bank marker;
- a 2-byte rotation, in hundredths of a degree;
- 32 returns of 3 bytes: a little-endian 16-bit distance count and a reflectivity byte.

There are two ways to decode a packet:

- **Generic decoder (`unpack`).** The marker chooses the upper bank (lasers 0..31) or the lower bank (lasers 32..63). Every return of the block is decoded at the block's raw rotation.
- **16-beam decoder (`unpack_vlp16`).** Every block must carry the upper-bank marker. The decoder stops at the first block that does not. Each block holds two firings of 16 beams. The azimuth of each return is interpolated between the block's rotation and the next block's. The step to the next block is threaded through the packet as `last_azimuth_diff`.

Both decoders apply two filters before emitting a point:

- an angular region-of-interest test on the azimuth;
- a range filter on the corrected distance.

`setParameters` stores the range bounds and the angular window. It widens a degenerate window to the full circle.

The modules follow the structure of the code:

| module | file | contents |
|---|---|---|
| `Packet` | packet.dfy | Block and packet layout, the little-endian 16-bit read, and parsing and serialising a packet buffer. |
| `ViewGate` | viewgate.dfy | The `config_` record, the angular containment test and `setParameters`. |
| `LaserCalibration` | calibration.dfy | The per-beam correction record and the sin/cos rotation tables. |
| `Geometry` | geometry.dfy | Per-return arithmetic: C `round`, C `%` and `/`, the corrected distance, the rotation correction, the two-point correction, the projection, and the reflectivity formulas. |
| `Decoding` | decoding.dfy | What both decoders share: the decoder state, the emitted point, candidate returns in decode order, and the range filter. |
| `GenericDecoder` | generic.dfy | `unpack` for calibrations that are not the 16-beam one. |
| `Vlp16Decoder` | vlp16.dfy | `unpack_vlp16` as a fold over the 12 blocks, plus a closed form of that fold that characterises its output. |
| `Vlp16Loop` | vlp16_loop.dfy | `unpack_vlp16` written as the source's nested loops over blocks, firings and beams, with the byte offset `k`. It is proved equal to the fold. |
| `RawData` | rawdata.dfy | The dispatch in `unpack`: a calibration of exactly 16 lasers selects the 16-beam decoder. |

A decode call is a pure function. It takes the decoder state and a packet and returns the emitted points, in order, together with the returned time. The `DataContainerBase` sink is the output sequence.

Floating-point values are modelled as reals, and integers as unbounded integers. Two parts of the computation are fields of the decoder state, so they are inputs rather than computed:

- **The range filter `pointInRange`.** It is declared in `rawdata.h`, which is not part of this model.
- **The rounded elevation angle.** The code computes it with `atan2`, `sqrt` and `rad2deg` for the 16-beam reflectivity code.

Three behaviours of the code worth noting:

- **A block without the upper-bank marker (16-beam decoder).** The code returns from the whole call (`rawdata.cc:343`), so the blocks after it are never decoded. Apart from its marker and its rotation, which the previous block's step reads (`rawdata.cc:350`), nothing from that block or any later block is read (`Vlp16Decoder.AbandonsRestOfPacket`).
- **A negative step between blocks**, such as 359.00 degrees followed by 1.00 degree. The code computes the wrapped difference (200) and then discards it (`rawdata.cc:351-369`). It reuses the previous positive difference, or skips the block when there is none (`Vlp16Decoder.NegativeChangeReusesLast`, `Vlp16Decoder.FirstBlockWrapSkipped`).
- **The time returned by the 16-beam decoder.** It is the packet stamp only when some return passed the angular test, and 0 otherwise (`Vlp16Decoder.UnpackTime`). The generic decoder always returns the stamp.

## Model

| member | source | states |
|---|---|---|
| Packet.DecodeU16 | src/drivers/vl_lidar_driver/src/rawdata.cc:196-198 | The two bytes of a return are read as a little-endian 16-bit value. The low byte is the value modulo 256 and the high byte is the quotient, so both bytes can be recovered from the value. |
| Packet.EncodeU16 | src/drivers/vl_lidar_driver/src/rawdata.cc:196-198 | Writing a 16-bit value as two bytes is inverted by the little-endian read. |
| Packet.ScanOffset | src/drivers/vl_lidar_driver/src/rawdata.cc:184 | The byte offset `k` of return `j` is a multiple of RAW_SCAN_SIZE that divides back to `j`. All three bytes of the return lie inside the 96 data bytes of the block. |
| Packet.ParseBlock | src/drivers/vl_lidar_driver/src/rawdata.cc:170 | A 100-byte block is read as a little-endian marker (bytes 0 and 1), a little-endian rotation (bytes 2 and 3), and 96 data bytes from offset 4. |
| Packet.ParseSerializeBlock | src/drivers/vl_lidar_driver/src/rawdata.cc:170 | Reading back a serialised block gives the same block. |
| Packet.SerializeParseBlock | src/drivers/vl_lidar_driver/src/rawdata.cc:170 | Serialising a parsed block gives back the 100 bytes it came from. |
| Packet.ParseBlocks | src/drivers/vl_lidar_driver/src/rawdata.cc:170 | Block `i` of the overlay is parsed from bytes 100*i up to 100*i+100 of the buffer. |
| Packet.ParseSerializeBlocks | src/drivers/vl_lidar_driver/src/rawdata.cc:170 | Any sequence of blocks survives being serialised and parsed back. |
| Packet.ParsePacket | src/drivers/vl_lidar_driver/src/rawdata.cc:331 | A buffer of at least 1200 bytes yields a well-formed packet of 12 blocks that keeps the receipt stamp. |
| Packet.PacketScanBytes | src/drivers/vl_lidar_driver/src/rawdata.cc:386-387 | The distance of return `j` of block `i` is read from buffer offsets 100*i+4+3*j and the byte after it. The reflectivity byte is two bytes further on. |
| Packet.BlockScanBytes | src/drivers/vl_lidar_driver/src/rawdata.cc:386-387 | Within one 100-byte block, the distance of return `j` is read from bytes 4+3*j and 5+3*j, and its reflectivity from byte 6+3*j. |
| Packet.ParseSerializePacket | src/drivers/vl_lidar_driver/src/rawdata.cc:331 | A well-formed packet survives being serialised and parsed back. |
| ViewGate.InView | src/drivers/vl_lidar_driver/src/rawdata.cc:201-204 | The angular test. If min < max, an azimuth passes iff it lies in [min, max]. If min > max, it passes iff it is <= max or >= min. If min == max, nothing passes. |
| ViewGate.Sweep | src/drivers/vl_lidar_driver/src/rawdata.cc:396-399 | The clockwise distance between two rotations lies in [0, 36000) and closes the circle. |
| ViewGate.InViewIsCircularArc | src/drivers/vl_lidar_driver/src/rawdata.cc:396-399 | For distinct bounds below 36000, the test accepts exactly the azimuths met on the clockwise sweep from min to max. This one independent definition covers both the plain window and the wrapping window. A bound of exactly 36000, which the conversion at `rawdata.cc:68-69` produces for a converted angle of 0, is not covered here; see `ViewGate.InViewAtFullTurn`. |
| ViewGate.FullCircleAcceptsAll | src/drivers/vl_lidar_driver/src/rawdata.cc:73-74 | The window (0, 36000) accepts every azimuth from 0 to 36000. |
| ViewGate.InViewAtFullTurn | src/drivers/vl_lidar_driver/src/rawdata.cc:396-399 | For a bound of exactly 36000 (what `rawdata.cc:68-69` produces for a converted angle of 0), the window is the azimuths from min on when max is 36000, and those up to max when min is 36000. So, when min > 0, a max of 36000 rejects azimuth 0, which a max of 0 would accept. |
| ViewGate.SetParameters | src/drivers/vl_lidar_driver/src/rawdata.cc:50-79 | The range bounds are stored as given. The stored angle bounds always differ, and the window accepts its own lower bound, so it is never empty. Equal bounds become exactly (0, 36000), which accepts every azimuth in [0, 36000). Distinct bounds are kept. |
| ViewGate.SetParametersIdempotent | src/drivers/vl_lidar_driver/src/rawdata.cc:70-75 | Applying the collapse to an already-stored configuration leaves it unchanged. |
| Geometry.Abs | src/drivers/vl_lidar_driver/src/rawdata.cc:235-238 | Negating a negative provisional coordinate gives a non-negative value of the same magnitude. |
| Geometry.Round | src/drivers/vl_lidar_driver/src/rawdata.cc:392 | C `round`: the result is within one half of its argument. Halfway cases go away from zero. |
| Geometry.RoundBetween | src/drivers/vl_lidar_driver/src/rawdata.cc:392 | Rounding a value that lies between two integers gives a result between them. An integer rounds to itself. |
| Geometry.CRemRotation | src/drivers/vl_lidar_driver/src/rawdata.cc:392 | C `%` by 36000: the remainder has the sign of the dividend, is smaller than 36000 in magnitude, and differs from the dividend by whole turns. |
| Geometry.CHalf | src/drivers/vl_lidar_driver/src/rawdata.cc:485 | C integer division by 2 truncates toward zero, for either sign. |
| Geometry.CorrectedDistance | src/drivers/vl_lidar_driver/src/rawdata.cc:206-207 | Computes the raw count times 0.002 plus the beam's distance correction. The distance is never below the correction, and a zero count gives exactly the correction. |
| Geometry.AngleDifferenceSumInverse | src/drivers/vl_lidar_driver/src/rawdata.cc:214-219 | The rotation correction subtracts the beam's angle through the cos(a-b) and sin(a-b) identities. Adding a unit angle back afterwards restores the table angle. |
| Geometry.AngleDifferenceOnUnitCircle | src/drivers/vl_lidar_driver/src/rawdata.cc:214-219 | The corrected rotation of two unit angles is again a unit angle. |
| Geometry.CorrectedRotation | src/drivers/vl_lidar_driver/src/rawdata.cc:414-417 | Computes the table angle at the azimuth minus the beam's correction. A zero correction leaves the table entry unchanged. |
| Geometry.AxisCorrection | src/drivers/vl_lidar_driver/src/rawdata.cc:445-452 | Computes the line through the near reference point and 25.04 m, less the base correction. At the near point it is the per-axis value minus the base, and at 25.04 m it is 0. |
| Geometry.TwoPointCorrection | src/drivers/vl_lidar_driver/src/rawdata.cc:441-453 | Both per-axis corrections are exactly zero when the beam has no two-point data. Otherwise it computes the per-axis line. Its value is the per-axis value minus the base at the near reference (2.4 m for x, 1.93 m for y), and 0 at 25.04 m. |
| Geometry.Project | src/drivers/vl_lidar_driver/src/rawdata.cc:229-284 | With two-point data off, x and y use the uncorrected distance. The result is then the rotated planar distance plus the horizontal offset, with the axes swapped into the right-handed output convention. z is the vertical projection plus the vertical offset. |
| Geometry.ProjectKeepsDistance | src/drivers/vl_lidar_driver/src/rawdata.cc:455-482 | With no offsets, no two-point data and unit angles, the projected point lies exactly `distance` away from the sensor. |
| Geometry.FocalIntensity | src/drivers/vl_lidar_driver/src/rawdata.cc:291-297 | The focal correction never lowers the raw reflectivity byte when the slope is non-negative. A zero slope leaves the byte unchanged. |
| Geometry.ClampIntensity | src/drivers/vl_lidar_driver/src/rawdata.cc:298-299 | The clamped intensity never exceeds the beam's maximum. It lies within the bounds whenever they are ordered. A value inside the bounds is kept, and a value outside becomes exactly the bound it violates. |
| Geometry.ClampIdempotent | src/drivers/vl_lidar_driver/src/rawdata.cc:298-299 | Clamping an already-clamped intensity changes nothing. |
| Geometry.ElevationCode | src/drivers/vl_lidar_driver/src/rawdata.cc:484-485 | The 16-beam reflectivity code is the elevation in degrees, plus 15, halved by C division, which truncates toward zero for negative sums too. Real elevations (-90 to 90 degrees) give codes from -37 to 52. |
| Decoding.Emitted | src/drivers/vl_lidar_driver/src/rawdata.cc:502-505 | The range filter keeps a candidate exactly when its corrected distance is in range. It never adds candidates, and it keeps their decode order. |
| Decoding.EmittedAppend | src/drivers/vl_lidar_driver/src/rawdata.cc:301-305 | Filtering candidates block by block is the same as filtering them all at once. |
| Decoding.EmittedAgree | src/drivers/vl_lidar_driver/src/rawdata.cc:502-505 | The range filter reads only the blocks its candidates name. |
| GenericDecoder.BankOrigin | src/drivers/vl_lidar_driver/src/rawdata.cc:177-182 | The bank origin is 32 exactly when the marker is LOWER_BANK, and 0 for every other marker, valid or not. |
| GenericDecoder.LaserNumber | src/drivers/vl_lidar_driver/src/rawdata.cc:191 | The laser number of return `j` is below 64, is congruent to `j` modulo 32, and lies in the upper half exactly for lower-bank blocks. |
| GenericDecoder.Slot | src/drivers/vl_lidar_driver/src/rawdata.cc:191-192 | Return `j` of block `i` is decoded with the laser its bank names and at the block's raw rotation. |
| GenericDecoder.GenericPoint | src/drivers/vl_lidar_driver/src/rawdata.cc:286-304 | A generic point reports the block's raw rotation as its azimuth, the corrected distance, and the laser's ring. Its intensity is clamped below the laser's maximum, and above its minimum when the bounds are ordered. |
| GenericDecoder.GenericPointPosition | src/drivers/vl_lidar_driver/src/rawdata.cc:229-284 | A generic point sits at the same output position of its candidate that a 16-beam point uses. |
| GenericDecoder.BlockScans | src/drivers/vl_lidar_driver/src/rawdata.cc:184-205 | A block contributes all 32 of its returns, in order, when its rotation passes the angular test, and none otherwise. |
| GenericDecoder.Blocks | src/drivers/vl_lidar_driver/src/rawdata.cc:172-173 | Blocks `i` to 11 contribute at most 32 candidates each. |
| GenericDecoder.BlockHead | src/drivers/vl_lidar_driver/src/rawdata.cc:172-205 | The candidates of one block come in return order. They are exactly its genuine returns, and the decoder can read each of them. |
| GenericDecoder.BlocksSound | src/drivers/vl_lidar_driver/src/rawdata.cc:172-205 | Every candidate of blocks `i` to 11 is a genuine return of one of them, and everything it reads is in bounds. |
| GenericDecoder.BlocksComplete | src/drivers/vl_lidar_driver/src/rawdata.cc:172-205 | Every genuine return of blocks `i` to 11 is among their candidates. |
| GenericDecoder.BlocksOrdered | src/drivers/vl_lidar_driver/src/rawdata.cc:172-184 | Candidates come in block order, then return order. |
| GenericDecoder.Candidates | src/drivers/vl_lidar_driver/src/rawdata.cc:192-219 | Every candidate indexes the calibration and the rotation tables within bounds. |
| GenericDecoder.CandidatesCharacterized | src/drivers/vl_lidar_driver/src/rawdata.cc:172-205 | In decode order, the candidates of a packet are exactly its genuine returns: every return of every block whose rotation passes the angular test. The decoder can read each of them. |
| GenericDecoder.Unpack | src/drivers/vl_lidar_driver/src/rawdata.cc:157-311 | The generic decoder always returns the packet stamp as its time. It emits at most 12 * 32 points. |
| GenericDecoder.UnpackPointsPassFilters | src/drivers/vl_lidar_driver/src/rawdata.cc:201-305 | Every emitted point passed both the range filter and the angular test. |
| GenericDecoder.EmittedCharacterized | src/drivers/vl_lidar_driver/src/rawdata.cc:172-308 | The emitted points are, in decode order, exactly those (block, return) pairs whose block rotation passes the angular test and whose distance is in range. The marker only chooses the bank. |
| Vlp16Decoder.FiringOffset | src/drivers/vl_lidar_driver/src/rawdata.cc:390 | The firing time of a return lies within one block duration, and the first return of a block fires at time 0. |
| Vlp16Decoder.Elapsed | src/drivers/vl_lidar_driver/src/rawdata.cc:390-391 | The part of the step elapsed at a firing time lies between none and all of the step. At time 0 none of it has elapsed. |
| Vlp16Decoder.Interpolated | src/drivers/vl_lidar_driver/src/rawdata.cc:390-392 | The interpolated azimuth lies between the block's rotation and the rotation one step further on. The first return sits exactly at the block's rotation. |
| Vlp16Decoder.AzimuthCorrected | src/drivers/vl_lidar_driver/src/rawdata.cc:392 | For a non-negative step, the corrected azimuth is the interpolated azimuth modulo 36000, so it is a valid sin/cos table index. |
| Vlp16Decoder.AzimuthDiffStep | src/drivers/vl_lidar_driver/src/rawdata.cc:346-376 | For blocks 0 to 10: a non-negative change to the next block is used. A negative change reuses a positive `last`, and skips the block when `last` is 0. The last block reuses `last`. A used step is never negative. |
| Vlp16Decoder.Slot | src/drivers/vl_lidar_driver/src/rawdata.cc:380-392 | Return `scan` of a block uses a calibration entry below 16, and its azimuth is a valid table index; `Vlp16Decoder.SlotIsReturn` states which entry and which azimuth. |
| Vlp16Decoder.SlotIsReturn | src/drivers/vl_lidar_driver/src/rawdata.cc:380-392 | Return `scan` of a block is read with calibration entry Dsr(scan) (`laser_corrections[dsr]`) at the block's corrected azimuth for that return. |
| Vlp16Decoder.BlockScans | src/drivers/vl_lidar_driver/src/rawdata.cc:378-381 | A block contributes at most one candidate per remaining return. |
| Vlp16Decoder.BlockScansOrdered | src/drivers/vl_lidar_driver/src/rawdata.cc:378-381 | A block's candidates all belong to that block and come in firing-then-beam order. |
| Vlp16Decoder.BlockScansSound | src/drivers/vl_lidar_driver/src/rawdata.cc:378-399 | Every candidate of a block is a return of that block, at its interpolated azimuth, that passes the angular test. |
| Vlp16Decoder.BlockScansComplete | src/drivers/vl_lidar_driver/src/rawdata.cc:378-399 | Every return of a block whose interpolated azimuth passes the angular test is among the block's candidates. |
| Vlp16Decoder.Fold | src/drivers/vl_lidar_driver/src/rawdata.cc:333-376 | The per-block fold never removes earlier candidates and adds at most 32 per remaining block. `last` stays non-negative. The time becomes the stamp exactly when a block adds a candidate. |
| Vlp16Decoder.FirstBadHeader | src/drivers/vl_lidar_driver/src/rawdata.cc:337-344 | Every block before it carries the upper-bank marker, and the block it names does not. |
| Vlp16Decoder.LastDiffBefore | src/drivers/vl_lidar_driver/src/rawdata.cc:324 | The value of `last` when a block is reached is a rotation step in [0, 36000). `Vlp16Decoder.LastDiffStartsAtZero` states its start value. |
| Vlp16Decoder.LastDiffStartsAtZero | src/drivers/vl_lidar_driver/src/rawdata.cc:324 | `last` is 0 when block 0 is reached. |
| Vlp16Decoder.UsedDiff | src/drivers/vl_lidar_driver/src/rawdata.cc:350-375 | The step a decoded block uses is a rotation step in [0, 36000). |
| Vlp16Decoder.StepClosedForm | src/drivers/vl_lidar_driver/src/rawdata.cc:346-376 | Run with the `last` of the closed form, the azimuth-difference step skips exactly the skipped blocks. Otherwise it uses the closed-form step and hands on the closed-form `last`. |
| Vlp16Decoder.BlockGenuine | src/drivers/vl_lidar_driver/src/rawdata.cc:346-399 | Every candidate of a decoded block is a genuine return of the packet from that block. |
| Vlp16Decoder.GenuineInBlock | src/drivers/vl_lidar_driver/src/rawdata.cc:346-399 | Every genuine return of a decoded block is among that block's candidates. |
| Vlp16Decoder.FoldSound | src/drivers/vl_lidar_driver/src/rawdata.cc:333-399 | Every candidate the fold produces is a genuine return. |
| Vlp16Decoder.FoldComplete | src/drivers/vl_lidar_driver/src/rawdata.cc:333-399 | Every genuine return is among the candidates the fold produces. |
| Vlp16Decoder.FoldOrdered | src/drivers/vl_lidar_driver/src/rawdata.cc:333-381 | The fold produces candidates in block, firing, beam order. |
| Vlp16Decoder.CandidatesCharacterized | src/drivers/vl_lidar_driver/src/rawdata.cc:333-399 | In decode order, the candidates of a packet are exactly the genuine returns. These are the returns that satisfy all of the following: they lie before the first bad marker, they are in a block that is not skipped, they are interpolated with that block's step, and they pass the angular test. |
| Vlp16Decoder.CandidatesAddressable | src/drivers/vl_lidar_driver/src/rawdata.cc:382 | Every candidate reads a calibration entry, a return and a table index within bounds. |
| Vlp16Decoder.Vlp16Point | src/drivers/vl_lidar_driver/src/rawdata.cc:404-505 | A 16-beam point reports the interpolated azimuth, the corrected distance and the beam's ring. Its intensity lies in [-37, 52] for real elevations; `Vlp16Decoder.Vlp16PointIntensity` states that it is the elevation code. |
| Vlp16Decoder.Vlp16PointIntensity | src/drivers/vl_lidar_driver/src/rawdata.cc:484-486 | A 16-beam point's intensity is the elevation code (rounded elevation plus 15, halved with C truncation) of its own output position. |
| Vlp16Decoder.Unpack | src/drivers/vl_lidar_driver/src/rawdata.cc:318-511 | The 16-beam decoder emits at most 12 * 32 points. Its time is the stamp or 0, and is the stamp whenever a point is emitted. A bad first marker gives no points and time 0. |
| Vlp16Decoder.UnpackTime | src/drivers/vl_lidar_driver/src/rawdata.cc:402 | The time is the packet stamp exactly when some return passed the angular test, even if the range filter then dropped every point. Otherwise it is 0. |
| Vlp16Decoder.EmittedCharacterized | src/drivers/vl_lidar_driver/src/rawdata.cc:396-505 | The emitted points are, in decode order, exactly those of the genuine returns whose distance is in range. |
| Vlp16Decoder.UnpackPointsPassFilters | src/drivers/vl_lidar_driver/src/rawdata.cc:396-505 | Every emitted point passed both the range filter and the angular test. |
| Vlp16Decoder.NegativeChangeReusesLast | src/drivers/vl_lidar_driver/src/rawdata.cc:354-371 | A block with a negative change to its successor is skipped exactly when no earlier block left a positive `last`. Otherwise it uses that `last`. Either way `last` is unchanged. |
| Vlp16Decoder.FirstBlockWrapSkipped | src/drivers/vl_lidar_driver/src/rawdata.cc:354-369 | When the rotation drops from block 0 to block 1, block 0 contributes no point. |
| Vlp16Decoder.FoldPrefix | src/drivers/vl_lidar_driver/src/rawdata.cc:337-344 | The fold reads nothing past the first bad marker, apart from that block's marker and rotation. |
| Vlp16Decoder.AbandonsRestOfPacket | src/drivers/vl_lidar_driver/src/rawdata.cc:337-344 | Two packets that agree on every block before the first bad marker, and on that block's marker and rotation, decode to the same points and time, whatever else follows. |
| Vlp16Loop.Vlp16PointsAppend | src/drivers/vl_lidar_driver/src/rawdata.cc:504 | Emitting two runs of points one after the other emits their concatenation. |
| Vlp16Loop.LoopScan | src/drivers/vl_lidar_driver/src/rawdata.cc:378-381 | Beam `dsr` of firing `firing` is return 16*firing+dsr of the block. |
| Vlp16Loop.LoopAzimuth | src/drivers/vl_lidar_driver/src/rawdata.cc:390-392 | The loop's azimuth expression, evaluated at the firing time of a return, is that return's corrected azimuth. |
| Vlp16Loop.ScansStep | src/drivers/vl_lidar_driver/src/rawdata.cc:380-399 | Handling one more return extends the block's candidate prefix by that return when it passes the angular test. |
| Vlp16Loop.ReturnCandidate | src/drivers/vl_lidar_driver/src/rawdata.cc:389-392 | The azimuth computed from the two loop counters is the interpolated azimuth of return 16*firing+dsr. |
| Vlp16Loop.EmitJoin | src/drivers/vl_lidar_driver/src/rawdata.cc:502-505 | Filtering and emitting two runs one after the other is the same as filtering and emitting the joined run. |
| Vlp16Loop.DecodeReturn | src/drivers/vl_lidar_driver/src/rawdata.cc:382-506 | One return read at byte offset `k`: it is added exactly when its azimuth passes the angular test, which also sets the time to the stamp. Its point is emitted only when its distance is in range. |
| Vlp16Loop.ProgressEmpty | src/drivers/vl_lidar_driver/src/rawdata.cc:378 | Before the first return of a block, nothing has been added, emitted or changed. |
| Vlp16Loop.ProgressStep | src/drivers/vl_lidar_driver/src/rawdata.cc:380-506 | Handling one more return extends the block's added candidates by that return when it passes the angular test. Its in-range point is appended, and the time becomes the stamp. |
| Vlp16Loop.ReturnStep | src/drivers/vl_lidar_driver/src/rawdata.cc:380-381 | One pass of the inner loop extends the block's progress by one return. It advances the return index by one and the byte offset by RAW_SCAN_SIZE. |
| Vlp16Loop.DecodeFiring | src/drivers/vl_lidar_driver/src/rawdata.cc:380-507 | The 16 beams of a firing add the firing's candidates and emit their in-range points, in order. |
| Vlp16Loop.DecodeBlock | src/drivers/vl_lidar_driver/src/rawdata.cc:378-508 | Both firings together add exactly the block's candidates and emit their in-range points, in order. |
| Vlp16Loop.BlockDiff | src/drivers/vl_lidar_driver/src/rawdata.cc:346-376 | The step the loop body computes, with its C remainder, fallback to `last` and `continue`, is the azimuth-difference step of the fold. |
| Vlp16Loop.UseBlock | src/drivers/vl_lidar_driver/src/rawdata.cc:366-508 | Decoding a block with the step the fold chooses advances the fold by one block. The emitted points stay those of the candidates gathered so far. |
| Vlp16Loop.BlockStep | src/drivers/vl_lidar_driver/src/rawdata.cc:333-376 | One pass of the block loop. A bad marker stops the call and changes nothing. Otherwise the block is skipped or decoded, and the fold advances by one block. |
| Vlp16Loop.UnpackLoop | src/drivers/vl_lidar_driver/src/rawdata.cc:318-511 | The nested loops produce the same points and time as the functional 16-beam decoder. They exit at the first bad marker, `continue` past a skipped block, and give the last block `last`. |
| RawData.Unpack | src/drivers/vl_lidar_driver/src/rawdata.cc:157-168 | A calibration of exactly 16 lasers selects the 16-beam decoder, and any other count selects the generic one. The time is the stamp for the generic decoder, and the stamp or 0 for the 16-beam one. Either way there are at most 384 points. |
| RawData.UnpackPointsPassFilters | src/drivers/vl_lidar_driver/src/rawdata.cc:164-311 | Whichever decoder runs, every emitted point passed both the range filter and the angular test. |

## Left out

- Setup, offline setup, parameter retrieval and logging (`rawdata.cc:82-150`, `:77-78`, `:161`, `:341`) are configuration and I/O. The decoder state is an input of every decode call.
- Reading the calibration file is a call into code outside this file. The calibration is an immutable sequence of per-beam records with precomputed sines and cosines.
- Building the sin/cos rotation tables (`rawdata.cc:114-119`) is floating-point trigonometry. The tables are uninterpreted sequences of 36000 reals.
- `Config.minRange` and `Config.maxRange` only mirror the two fields `setParameters` stores (`rawdata.cc:53-54`). Neither decoder reads them: the range filter is `pointInRange`, which is declared in `rawdata.h`, and this model does not connect it to those fields.
- ViewGate.SetParameters: the conversion of the view direction and width from radians to hundredths of a degree (`rawdata.cc:59-69`, `fmod`, `M_PI`, `+0.5` truncation) is floating-point numerics. The function takes the converted integer bounds and models the collapse step only.
- Floating-point precision: `float` and `double` values are reals, so rounding of intermediate results is not modelled.
- `pointInRange` (declared in `rawdata.h`, which is not part of this model) is an uninterpreted predicate of the decoder state.
- The `atan2`, `sqrt`, `pow`, `rad2deg` and `round` chain that gives the 16-beam elevation (`rawdata.cc:484`) is an uninterpreted function of the decoder state. Only the integer step after it (`:485`) is modelled.
- The constants that `rawdata.h` defines (`rawdata.h` is not part of this model) are taken as the device values: 12 blocks, 32 returns, RAW_SCAN_SIZE 3, UPPER_BANK 0xEEFF and LOWER_BANK 0xDDFF are named constants. The VLP-16 firing timing is written as the literals 2.304, 55.296 and 110.592 microseconds, so that the arithmetic stays linear; only the block duration is named (`VLP16_BLOCK_TDURATION`). The proofs use only that the bank markers are distinct and that the timing offsets put every firing inside one block.
- The struct overlay of the packet buffer and the `two_bytes` union are modelled as explicit little-endian reads, which is what they do on the little-endian hosts the driver runs on.
- `DataContainerBase::addPoint` is the appended output sequence. Any other effects of the sink are not modelled.
- `uint8_t laser_number` (`rawdata.cc:189`) cannot wrap, since `j + bank_origin` is below 64, so it is an unbounded natural number.
- The commented-out intensity code of the 16-beam decoder (`rawdata.cc:487-500`) is not modelled, because it never runs.
- Vlp16Decoder.Readable and GenericDecoder.Readable require at least 16 (or bank origin + 32) calibration entries and 36000-entry tables. The code reads those entries unchecked, so a shorter calibration is undefined behaviour there, not an error path.
- GenericDecoder.Readable requires a rotation below 36000 for a block that passes the angular test, because the code indexes the tables with the raw rotation unchecked (`rawdata.cc:216-219`).
