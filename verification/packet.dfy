/** Layout of one raw sensor packet: 12 blocks, each a 2-byte bank marker,
    a 2-byte rotation (hundredths of a degree) and 32 returns of
    RAW_SCAN_SIZE bytes (a little-endian 16-bit distance count and one
    reflectivity byte). Multi-byte fields are read as on a little-endian
    host, which is what the struct overlay of the decoder does there. */
module Packet {

  type byte = x: int | 0 <= x < 0x100
  type u16 = x: int | 0 <= x < 0x1_0000

  const BLOCKS_PER_PACKET: nat := 12
  const SCANS_PER_BLOCK: nat := 32
  const RAW_SCAN_SIZE: nat := 3
  /** SCANS_PER_BLOCK * RAW_SCAN_SIZE bytes of returns per block */
  const BLOCK_DATA_SIZE: nat := 96
  /** marker + rotation + returns */
  const SIZE_BLOCK: nat := 100
  const ROTATION_MAX_UNITS: nat := 36000
  /** BLOCKS_PER_PACKET * SIZE_BLOCK bytes of blocks per packet */
  const PACKET_BLOCKS_SIZE: nat := 1200

  /** Bank markers as read by a little-endian host (bytes ff ee and ff dd). */
  const UPPER_BANK: u16 := 0xEEFF
  const LOWER_BANK: u16 := 0xDDFF

  datatype Block = Block(header: u16, rotation: u16, data: seq<byte>)

  /** One packet plus its receipt stamp (seconds). */
  datatype RawPacket = RawPacket(blocks: seq<Block>, stamp: real)

  predicate WellFormedBlock(b: Block) {
    |b.data| == BLOCK_DATA_SIZE
  }

  predicate WellFormed(p: RawPacket) {
    && |p.blocks| == BLOCKS_PER_PACKET
    && forall i :: 0 <= i < |p.blocks| ==> WellFormedBlock(p.blocks[i])
  }

  /** Little-endian 16-bit value of two bytes; the bytes are recovered
      from the value, so decoding loses nothing. */
  function DecodeU16(lo: byte, hi: byte): (v: u16)
    ensures v % 0x100 == lo && v / 0x100 == hi
  {
    lo + 0x100 * hi
  }

  function EncodeU16(v: u16): (bytes: seq<byte>)
    ensures |bytes| == 2
    ensures DecodeU16(bytes[0], bytes[1]) == v
  {
    [v % 0x100, v / 0x100]
  }

  /** Byte offset `k` of return `scan` inside a block's data. */
  function ScanOffset(scan: nat): (k: nat)
    requires scan < SCANS_PER_BLOCK
    ensures k % 3 == 0 && k / 3 == scan
    ensures k + RAW_SCAN_SIZE <= BLOCK_DATA_SIZE
  {
    3 * scan
  }

  /** Raw 16-bit distance count of one return. */
  function ScanDistance(b: Block, scan: nat): u16
    requires WellFormedBlock(b) && scan < SCANS_PER_BLOCK
  {
    var k := ScanOffset(scan);
    DecodeU16(b.data[k], b.data[k + 1])
  }

  /** Raw reflectivity byte of one return. */
  function ScanIntensity(b: Block, scan: nat): byte
    requires WellFormedBlock(b) && scan < SCANS_PER_BLOCK
  {
    b.data[ScanOffset(scan) + 2]
  }

  function ParseBlock(bytes: seq<byte>): (b: Block)
    requires |bytes| == SIZE_BLOCK
    ensures WellFormedBlock(b)
    ensures b.header % 0x100 == bytes[0] && b.header / 0x100 == bytes[1]
    ensures b.rotation % 0x100 == bytes[2] && b.rotation / 0x100 == bytes[3]
    ensures forall k :: 0 <= k < BLOCK_DATA_SIZE ==> b.data[k] == bytes[4 + k]
  {
    Block(DecodeU16(bytes[0], bytes[1]), DecodeU16(bytes[2], bytes[3]), bytes[4..])
  }

  function SerializeBlock(b: Block): (bytes: seq<byte>)
    requires WellFormedBlock(b)
    ensures |bytes| == SIZE_BLOCK
  {
    EncodeU16(b.header) + EncodeU16(b.rotation) + b.data
  }

  lemma ParseSerializeBlock(b: Block)
    requires WellFormedBlock(b)
    ensures ParseBlock(SerializeBlock(b)) == b
  {
    var bytes := SerializeBlock(b);
    assert bytes[4..] == b.data;
  }

  lemma SerializeParseBlock(bytes: seq<byte>)
    requires |bytes| == SIZE_BLOCK
    ensures SerializeBlock(ParseBlock(bytes)) == bytes
  {
    var b := ParseBlock(bytes);
    assert EncodeU16(b.header) == bytes[..2];
    assert EncodeU16(b.rotation) == bytes[2..4];
    assert bytes == bytes[..2] + bytes[2..4] + bytes[4..];
  }

  /** The first `n` blocks laid out back to back, SIZE_BLOCK bytes each. */
  function ParseBlocks(bytes: seq<byte>, n: nat): (bs: seq<Block>)
    requires |bytes| >= 100 * n
    ensures |bs| == n
    ensures forall i :: 0 <= i < n ==>
              bs[i] == ParseBlock(bytes[100 * i .. 100 * i + 100])
    decreases n
  {
    if n == 0 then []
    else
      var rest := ParseBlocks(bytes[100..], n - 1);
      forall i | 1 <= i < n
        ensures bytes[100..][100 * (i - 1) .. 100 * (i - 1) + 100] == bytes[100 * i .. 100 * i + 100]
      {
        var lo := 100 * (i - 1);
        assert bytes[100..][lo .. lo + 100] == bytes[100 + lo .. 100 + lo + 100];
      }
      [ParseBlock(bytes[..100])] + rest
  }

  function SerializeBlocks(bs: seq<Block>): (bytes: seq<byte>)
    requires forall i :: 0 <= i < |bs| ==> WellFormedBlock(bs[i])
    ensures |bytes| == 100 * |bs|
  {
    if |bs| == 0 then []
    else SerializeBlock(bs[0]) + SerializeBlocks(bs[1..])
  }

  lemma {:induction false} ParseSerializeBlocks(bs: seq<Block>)
    requires forall i :: 0 <= i < |bs| ==> WellFormedBlock(bs[i])
    ensures ParseBlocks(SerializeBlocks(bs), |bs|) == bs
  {
    if |bs| > 0 {
      var bytes := SerializeBlocks(bs);
      assert bytes[..100] == SerializeBlock(bs[0]);
      assert bytes[100..] == SerializeBlocks(bs[1..]);
      ParseSerializeBlock(bs[0]);
      ParseSerializeBlocks(bs[1..]);
    }
  }

  /** The blocks of a packet buffer; bytes after the last block (status
      fields) are not read by the decoder. */
  function ParsePacket(bytes: seq<byte>, stamp: real): (p: RawPacket)
    requires |bytes| >= PACKET_BLOCKS_SIZE
    ensures WellFormed(p) && p.stamp == stamp
  {
    RawPacket(ParseBlocks(bytes, BLOCKS_PER_PACKET), stamp)
  }

  /** Where the reads of return `scan` land in the bytes of one block:
      the distance at offsets 4+k and 5+k, the reflectivity at 6+k, with
      k = 3 * scan. */
  lemma BlockScanBytes(bytes: seq<byte>, scan: nat)
    requires |bytes| == SIZE_BLOCK && scan < SCANS_PER_BLOCK
    ensures var b := ParseBlock(bytes);
            && ScanDistance(b, scan) == DecodeU16(bytes[4 + 3 * scan], bytes[5 + 3 * scan])
            && ScanIntensity(b, scan) == bytes[6 + 3 * scan]
  {
    var b := ParseBlock(bytes);
    var k := ScanOffset(scan);
    assert b.data[k] == bytes[4 + k];
    assert b.data[k + 1] == bytes[4 + k + 1];
    assert b.data[k + 2] == bytes[4 + k + 2];
  }

  /** Where the decoder's reads of return `scan` of block `i` land in the
      packet buffer: the distance at offsets 4+k and 5+k of the block, the
      reflectivity at 6+k, with k = 3 * scan. */
  lemma PacketScanBytes(bytes: seq<byte>, stamp: real, i: nat, scan: nat)
    requires |bytes| >= PACKET_BLOCKS_SIZE
    requires i < BLOCKS_PER_PACKET && scan < SCANS_PER_BLOCK
    ensures var b := ParsePacket(bytes, stamp).blocks[i];
            var base := 100 * i + 4 + 3 * scan;
            && ScanDistance(b, scan) == DecodeU16(bytes[base], bytes[base + 1])
            && ScanIntensity(b, scan) == bytes[base + 2]
  {
    var blockBytes := bytes[100 * i .. 100 * i + 100];
    BlockScanBytes(blockBytes, scan);
  }

  function SerializePacket(p: RawPacket): (bytes: seq<byte>)
    requires WellFormed(p)
    ensures |bytes| == PACKET_BLOCKS_SIZE
  {
    SerializeBlocks(p.blocks)
  }

  lemma ParseSerializePacket(p: RawPacket)
    requires WellFormed(p)
    ensures ParsePacket(SerializePacket(p), p.stamp) == p
  {
    ParseSerializeBlocks(p.blocks);
  }
}
