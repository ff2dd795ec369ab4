/** On-disk inodes: struct dinode laid over the words of the inode blocks (fs.h:40-47), and
    what iupdate stores. */
module Inodes {
  import opened Blocks
  import opened Bitmap
  import opened Ownership

  const DWORDS: nat := 16            // sizeof(struct dinode) / 4

  /** memmove of whole words into a block. */
  function PutWords(b: Block, at: nat, ws: seq<word>): (r: Block)
    requires at + |ws| <= WORDS
  {
    if |ws| == 0 then b
    else SetWord(PutWords(b, at, ws[..|ws| - 1]), at + |ws| - 1, ws[|ws| - 1])
  }

  lemma {:induction false} PutWordsThenWord(b: Block, at: nat, ws: seq<word>, j: nat)
    requires at + |ws| <= WORDS && j < WORDS
    ensures Word(PutWords(b, at, ws), j) == if at <= j < at + |ws| then ws[j - at] else Word(b, j)
    decreases |ws|
  {
    hide Word, SetWord;
    if |ws| > 0 {
      var n := |ws| - 1;
      PutWordsThenWord(b, at, ws[..n], j);
      SetWordThenWord(PutWords(b, at, ws[..n]), at + n, ws[n], j);
    }
  }

  function Pack(ip: Inode): (r: seq<word>)
    ensures |r| == DWORDS
  {
    [ip.kind + 0x1_0000 * ip.major, ip.minor + 0x1_0000 * ip.nlink, ip.size] + ip.addrs
  }

  function Unpack(ws: seq<word>): Inode
    requires |ws| == DWORDS
  {
    Inode(ws[0] % 0x1_0000, ws[0] / 0x1_0000, ws[1] % 0x1_0000, ws[1] / 0x1_0000, ws[2], ws[3..])
  }

  lemma PackUnpack(ip: Inode)
    ensures Unpack(Pack(ip)) == ip
  {
    assert Pack(ip)[3..] == ip.addrs;
  }

  /** Block that holds inode f. */
  function IBlock(sb: Superblock, f: nat): nat
  {
    f / IPB + sb.inodestart
  }

  lemma IBlockIsMeta(sb: Superblock, f: nat)
    requires LayoutOk(sb) && f < sb.ninodes
    ensures 2 <= IBlock(sb, f) < sb.bmapstart < DataStart(sb) <= sb.size
  {
    assert f / IPB <= sb.ninodes / IPB;
  }

  function WordsFrom(b: Block, at: nat, n: nat): (r: seq<word>)
    requires at + n <= WORDS
    ensures |r| == n && forall i | 0 <= i < n :: r[i] == Word(b, at + i)
  {
    if n == 0 then [] else WordsFrom(b, at, n - 1) + [Word(b, at + n - 1)]
  }

  function DinodeWords(b: Block, k: nat): (r: seq<word>)
    requires k < IPB
    ensures |r| == DWORDS && forall i | 0 <= i < DWORDS :: r[i] == Word(b, DWORDS * k + i)
  {
    WordsFrom(b, DWORDS * k, DWORDS)
  }

  /** What ilock reads. */
  function DiskInode(sb: Superblock, disk: seq<Block>, f: nat): Inode
    requires DiskOk(sb, disk) && f < sb.ninodes
  {
    IBlockIsMeta(sb, f);
    Unpack(DinodeWords(disk[IBlock(sb, f)], f % IPB))
  }

  /** What iupdate writes. */
  function Stored(sb: Superblock, disk: seq<Block>, f: nat, ip: Inode): (r: seq<Block>)
    requires DiskOk(sb, disk) && f < sb.ninodes
    ensures DiskOk(sb, r)
  {
    IBlockIsMeta(sb, f);
    disk[IBlock(sb, f) := PutWords(disk[IBlock(sb, f)], DWORDS * (f % IPB), Pack(ip))]
  }

  lemma DinodeAfter(b: Block, k: nat, ip: Inode, j: nat)
    requires k < IPB && j < IPB
    ensures DinodeWords(PutWords(b, DWORDS * k, Pack(ip)), j) == if j == k then Pack(ip) else DinodeWords(b, j)
  {
    hide Pack, Word, PutWords, DinodeWords;
    var was, now := DinodeWords(b, j), DinodeWords(PutWords(b, DWORDS * k, Pack(ip)), j);
    forall i | 0 <= i < DWORDS
      ensures now[i] == if j == k then Pack(ip)[i] else was[i]
    {
      PutWordsThenWord(b, DWORDS * k, Pack(ip), DWORDS * j + i);
    }
  }

  /** The stored inode reads back, and no other inode changes. */
  lemma StoredReadsBack(sb: Superblock, disk: seq<Block>, f: nat, ip: Inode, g: nat)
    requires DiskOk(sb, disk) && f < sb.ninodes && g < sb.ninodes
    ensures DiskInode(sb, Stored(sb, disk, f, ip), g) == if g == f then ip else DiskInode(sb, disk, g)
  {
    hide Pack, Unpack, DinodeWords, PutWords, ReadSb;
    IBlockIsMeta(sb, f);
    IBlockIsMeta(sb, g);
    PackUnpack(ip);
    if f / IPB == g / IPB {
      DinodeAfter(disk[IBlock(sb, f)], f % IPB, ip, g % IPB);
    }
  }

  /** Memory and disk agree on every inode except possibly f. */
  ghost predicate SyncedBut(sb: Superblock, disk: seq<Block>, mem: seq<Inode>, f: int)
    requires DiskOk(sb, disk) && |mem| == sb.ninodes
  {
    forall g | 0 <= g < |mem| && g != f :: DiskInode(sb, disk, g) == mem[g]
  }

  lemma SyncFrame(sb: Superblock, disk: seq<Block>, disk': seq<Block>, mem: seq<Inode>, f: int)
    requires DiskOk(sb, disk) && DiskOk(sb, disk') && |mem| == sb.ninodes && SyncedBut(sb, disk, mem, f)
    requires forall k | 2 <= k < sb.bmapstart :: disk'[k] == disk[k]
    ensures SyncedBut(sb, disk', mem, f)
  {
    hide Unpack, DinodeWords, ReadSb;
    forall g | 0 <= g < |mem| && g != f
      ensures DiskInode(sb, disk', g) == mem[g]
    {
      IBlockIsMeta(sb, g);
      assert DiskInode(sb, disk, g) == mem[g];
    }
  }
}
