/** The superblock, the free bitmap and the two operations on it: balloc and bfree of fs.c.
    The disk is the block map that the buffer cache refines (module BufferCache). */
module Bitmap {
  import opened Blocks

  const BPB: nat := 4096             // bitmap bits per block, BSIZE * 8
  const IPB: nat := 8                // inodes per block

  datatype Superblock = Superblock(size: word, nblocks: word, ninodes: word, nlog: word,
                                   logstart: word, inodestart: word, bmapstart: word)

  /** readsb: the words of block 1. */
  function ReadSb(b: Block): Superblock
  {
    Superblock(Word(b, 0), Word(b, 1), Word(b, 2), Word(b, 3), Word(b, 4), Word(b, 5), Word(b, 6))
  }

  /** First block after the bitmap. */
  function DataStart(sb: Superblock): nat
  {
    sb.bmapstart + sb.size / BPB + 1
  }

  /** The regions in the order fs.h gives them; block numbers fit a C `int`. */
  ghost predicate LayoutOk(sb: Superblock)
  {
    && 2 <= sb.inodestart
    && sb.inodestart + sb.ninodes / IPB + 1 <= sb.bmapstart
    && DataStart(sb) <= sb.size <= 0x7fff_ffff - BPB
  }

  ghost predicate DiskOk(sb: Superblock, disk: seq<Block>)
  {
    LayoutOk(sb) && |disk| == sb.size && ReadSb(disk[1]) == sb
  }

  // ---------------------------------------------------------------- bits in a byte

  /** x & (1 << k) is not 0. */
  predicate TestBit(x: nat, k: nat)
  {
    if k == 0 then x % 2 == 1 else TestBit(x / 2, k - 1)
  }

  /** x | (1 << k) for v, x & ~(1 << k) for !v. */
  function PutBit(x: nat, k: nat, v: bool): (r: nat)
    ensures TestBit(r, k) == v
  {
    if k == 0 then x / 2 * 2 + (if v then 1 else 0) else PutBit(x / 2, k - 1, v) * 2 + x % 2
  }

  lemma {:induction false} OtherBits(x: nat, k: nat, v: bool, j: nat)
    requires j != k
    ensures TestBit(PutBit(x, k, v), j) == TestBit(x, j)
  {
    if k > 0 && j > 0 {
      OtherBits(x / 2, k - 1, v, j - 1);
    }
  }

  function Pow2(n: nat): nat
  {
    if n == 0 then 1 else 2 * Pow2(n - 1)
  }

  lemma {:induction false} PutBitFits(x: nat, k: nat, v: bool, n: nat)
    requires k < n && x < Pow2(n)
    ensures PutBit(x, k, v) < Pow2(n)
  {
    if k > 0 {
      PutBitFits(x / 2, k - 1, v, n - 1);
    }
  }

  lemma ByteWithBit(x: byte, k: nat, v: bool)
    requires k < 8
    ensures PutBit(x, k, v) < 256
  {
    assert Pow2(4) == 16;
    PutBitFits(x, k, v, 8);
  }

  // ---------------------------------------------------------------- bits on the disk

  /** Block of the bitmap that holds the bit of block b. */
  function BitBlock(sb: Superblock, b: nat): nat
  {
    b / BPB + sb.bmapstart
  }

  lemma BitBlockIsMeta(sb: Superblock, b: nat)
    requires LayoutOk(sb) && b < sb.size
    ensures 2 <= sb.bmapstart <= BitBlock(sb, b) < DataStart(sb) <= sb.size
  {
    assert b / BPB <= sb.size / BPB;
  }

  function BitByte(sb: Superblock, disk: seq<Block>, b: nat): byte
    requires DiskOk(sb, disk) && b < sb.size
  {
    BitBlockIsMeta(sb, b);
    disk[BitBlock(sb, b)][b % BPB / 8]
  }

  /** Block b is marked in use. */
  predicate Bit(sb: Superblock, disk: seq<Block>, b: nat)
    requires DiskOk(sb, disk) && b < sb.size
  {
    TestBit(BitByte(sb, disk, b), b % BPB % 8)
  }

  function BlockWithBit(d: Block, bi: nat, v: bool): (r: Block)
    requires bi < BPB
  {
    ByteWithBit(d[bi / 8], bi % 8, v);
    d[bi / 8 := PutBit(d[bi / 8], bi % 8, v)]
  }

  function DiskWithBit(sb: Superblock, disk: seq<Block>, b: nat, v: bool): (r: seq<Block>)
    requires DiskOk(sb, disk) && b < sb.size
    ensures DiskOk(sb, r)
  {
    BitBlockIsMeta(sb, b);
    disk[BitBlock(sb, b) := BlockWithBit(disk[BitBlock(sb, b)], b % BPB, v)]
  }

  /** Writing one bit changes that bit and no other. */
  lemma BitAfter(sb: Superblock, disk: seq<Block>, b: nat, v: bool, c: nat)
    requires DiskOk(sb, disk) && b < sb.size && c < sb.size
    ensures Bit(sb, DiskWithBit(sb, disk, b, v), c) == if c == b then v else Bit(sb, disk, c)
  {
    BitBlockIsMeta(sb, b);
    if c != b && c / BPB == b / BPB && c % BPB / 8 == b % BPB / 8 {
      OtherBits(disk[BitBlock(sb, b)][b % BPB / 8], b % BPB % 8, v, c % BPB % 8);
    }
  }

  /** Bits live in the bitmap blocks only. */
  lemma BitFrame(sb: Superblock, disk: seq<Block>, k: nat, d: Block, b: nat)
    requires DiskOk(sb, disk) && b < sb.size && 2 <= k < sb.size
    requires k < sb.bmapstart || DataStart(sb) <= k
    ensures DiskOk(sb, disk[k := d]) && Bit(sb, disk[k := d], b) == Bit(sb, disk, b)
  {
    BitBlockIsMeta(sb, b);
  }

  ghost predicate AllUsed(sb: Superblock, disk: seq<Block>, n: nat)
    requires DiskOk(sb, disk) && n <= sb.size
  {
    forall b | 0 <= b < n :: Bit(sb, disk, b)
  }

  /** What balloc leaves behind when it takes block b. */
  function Taken(sb: Superblock, disk: seq<Block>, b: nat): (r: seq<Block>)
    requires DiskOk(sb, disk) && b < sb.size
  {
    DiskWithBit(sb, disk, b, true)[b := ZERO]
  }

  /** The scan of balloc sees the bits in block order. */
  lemma ScanBit(sb: Superblock, disk: seq<Block>, b: nat, bi: nat)
    requires DiskOk(sb, disk) && b % BPB == 0 && bi < BPB && b + bi < sb.size
    ensures BitBlock(sb, b) == BitBlock(sb, b + bi) < DataStart(sb) && (b + bi) % BPB == bi
    ensures Bit(sb, disk, b + bi) == TestBit(disk[BitBlock(sb, b)][bi / 8], bi % 8)
  {
    BitBlockIsMeta(sb, b + bi);
    assert (b + bi) / BPB == b / BPB && (b + bi) % BPB == bi;
  }
}
