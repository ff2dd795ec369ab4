/** mkfs.c: the image builder. It hands out blocks by counting and writes the bitmap once, at the
    end. The ghost disk Marked is the image with that bitmap already in place: on it every step of
    mkfs is a step of the kernel's allocator, so the finished image is a state of the kernel. */
module MkfsImage {
  import opened Blocks
  import opened Bitmap
  import opened Ownership
  import opened Inodes
  import opened FileView
  import opened FileSystem
  import opened FileRuns
  import opened BlockCount

  // ---------------------------------------------------------------- the bitmap written at the end

  /** balloc of mkfs.c: the first n bits. */
  function FirstBits(n: nat): Block
    requires n <= BPB
  {
    if n == 0 then ZERO else BlockWithBit(FirstBits(n - 1), n - 1, true)
  }

  lemma {:induction false} ZeroBit(k: nat)
    ensures !TestBit(0, k)
  {
    if k > 0 {
      ZeroBit(k - 1);
    }
  }

  lemma {:induction false} FirstBitsTest(n: nat, k: nat)
    requires n <= BPB && k < BPB
    ensures TestBit(FirstBits(n)[k / 8], k % 8) <==> k < n
  {
    if n == 0 {
      ZeroBit(k % 8);
    } else {
      FirstBitsTest(n - 1, k);
      var j := n - 1;
      if k / 8 == j / 8 && k != j {
        OtherBits(FirstBits(j)[j / 8], j % 8, true, k % 8);
      }
    }
  }

  /** The image with the bits of the blocks below used in place. */
  function Marked(sb: Superblock, disk: seq<Block>, used: nat): (r: seq<Block>)
    requires DiskOk(sb, disk) && used <= BPB
    ensures DiskOk(sb, r)
  {
    disk[sb.bmapstart := FirstBits(used)]
  }

  /** Bitmap blocks are still zero, as are the blocks not handed out yet. */
  ghost predicate Blank(sb: Superblock, disk: seq<Block>, used: nat)
    requires DiskOk(sb, disk)
  {
    && (forall k | sb.bmapstart <= k < DataStart(sb) :: disk[k] == ZERO)
    && (forall k | used <= k < sb.size :: disk[k] == ZERO)
  }

  lemma MarkedBit(sb: Superblock, disk: seq<Block>, used: nat, b: nat)
    requires DiskOk(sb, disk) && DataStart(sb) <= used <= BPB && Blank(sb, disk, used) && b < sb.size
    ensures Bit(sb, Marked(sb, disk, used), b) <==> b < used
  {
    hide ReadSb, TestBit, FirstBits;
    BitBlockIsMeta(sb, b);
    if b < BPB {
      FirstBitsTest(used, b);
    } else {
      ZeroBit(b % BPB % 8);
    }
  }

  /** Counting on is taking the next block. */
  lemma CountingTakes(sb: Superblock, disk: seq<Block>, used: nat)
    requires DiskOk(sb, disk) && DataStart(sb) <= used < sb.size && used < BPB && Blank(sb, disk, used)
    ensures Marked(sb, disk, used + 1) == Taken(sb, Marked(sb, disk, used), used)
    ensures Blank(sb, disk, used + 1)
  {
    hide ReadSb, BlockWithBit;
    BitBlockIsMeta(sb, used);
    assert used / BPB == 0 && used % BPB == used;
  }

  // ---------------------------------------------------------------- building

  ghost predicate Building(sb: Superblock, disk: seq<Block>, used: nat, mem: seq<Inode>, owner: map<nat, Owner>)
  {
    && DiskOk(sb, disk) && DataStart(sb) <= used <= sb.size && used <= BPB
    && Blank(sb, disk, used)
    && Owns(sb, Marked(sb, disk, used), mem, owner, {})
    && |mem| == sb.ninodes
  }

  lemma CountDirect(sb: Superblock, disk: seq<Block>, used: nat, mem: seq<Inode>, owner: map<nat, Owner>, f: nat,
                    s: nat)
    requires Building(sb, disk, used, mem, owner) && used < sb.size && used < BPB
    requires f < |mem| && s <= NDIRECT && mem[f].addrs[s] == 0
    ensures var mem' := mem[f := WithAddr(mem[f], s, used)];
      && Building(sb, disk, used + 1, mem', owner[used := Owner(f, s)])
      && Grown(sb, Marked(sb, disk, used), mem, Marked(sb, disk, used + 1), mem', f)
      && RefOf(Marked(sb, disk, used + 1), mem', f, s) == used
  {
    hide Bit, ReadSb, Marked, Taken, Owns, Grown;
    var seen := Marked(sb, disk, used);
    MarkedBit(sb, disk, used, used);
    assert RefOf(seen, mem, f, s) == 0;
    ClaimDirect(sb, seen, mem, owner, f, s, used);
    CountingTakes(sb, disk, used);
  }

  /** The next block to count out is nobody's; a slot is in use exactly if it owns a block. */
  lemma NextIsFree(sb: Superblock, disk: seq<Block>, used: nat, mem: seq<Inode>, owner: map<nat, Owner>)
    requires Building(sb, disk, used, mem, owner) && used < sb.size
    ensures used !in owner
  {
    hide Bit, ReadSb, Marked, RefOf;
    MarkedBit(sb, disk, used, used);
  }

  lemma SlotHeld(sb: Superblock, disk: seq<Block>, used: nat, mem: seq<Inode>, owner: map<nat, Owner>, f: nat, s: nat)
    requires Building(sb, disk, used, mem, owner) && f < |mem| && s < SLOTS
    ensures Owner(f, s) in owner.Values <==> RefOf(Marked(sb, disk, used), mem, f, s) != 0
  {
    hide Bit, ReadSb, RefOf, FirstBits;
    HeldIff(Marked(sb, disk, used), mem, owner, f, s);
  }

  /** Blocks that some slot holds have been handed out. */
  lemma HeldBelow(sb: Superblock, disk: seq<Block>, used: nat, mem: seq<Inode>, owner: map<nat, Owner>, f: nat, s: nat)
    requires Building(sb, disk, used, mem, owner) && f < |mem| && s < SLOTS
    requires RefOf(Marked(sb, disk, used), mem, f, s) != 0
    ensures var k := RefOf(Marked(sb, disk, used), mem, f, s);
      DataStart(sb) <= k < used && sb.bmapstart < k && Marked(sb, disk, used)[k] == disk[k]
  {
    hide Bit, ReadSb, RefOf, FirstBits;
    var k := RefOf(Marked(sb, disk, used), mem, f, s);
    assert k in owner;
    MarkedBit(sb, disk, used, k);
  }

  lemma CountEntry(sb: Superblock, disk: seq<Block>, used: nat, mem: seq<Inode>, owner: map<nat, Owner>, f: nat, j: nat)
    requires Building(sb, disk, used, mem, owner) && used < sb.size && used < BPB
    requires f < |mem| && j < WORDS && mem[f].addrs[NDIRECT] != 0
             && RefOf(Marked(sb, disk, used), mem, f, NDIRECT + 1 + j) == 0
    ensures DataStart(sb) <= mem[f].addrs[NDIRECT] < used
    ensures var k := mem[f].addrs[NDIRECT]; var disk' := disk[k := SetWord(disk[k], j, used)];
      && Building(sb, disk', used + 1, mem, owner[used := Owner(f, NDIRECT + 1 + j)])
      && Grown(sb, Marked(sb, disk, used), mem, Marked(sb, disk', used + 1), mem, f)
      && RefOf(Marked(sb, disk', used + 1), mem, f, NDIRECT + 1 + j) == used
  {
    hide Bit, ReadSb, Taken, Owns, Grown, SetWord, Word, FirstBits;
    var seen := Marked(sb, disk, used);
    var k := mem[f].addrs[NDIRECT];
    assert RefOf(seen, mem, f, NDIRECT) == k;
    HeldBelow(sb, disk, used, mem, owner, f, NDIRECT);
    MarkedBit(sb, disk, used, used);
    ClaimIndirect(sb, seen, mem, owner, f, NDIRECT + 1 + j, used);
    CountingTakes(sb, disk, used);
    var disk' := disk[k := SetWord(disk[k], j, used)];
    assert Marked(sb, disk', used + 1) == Marked(sb, disk, used + 1)[k := SetWord(disk[k], j, used)];
  }

  lemma PatchBelow(sb: Superblock, disk: seq<Block>, used: nat, mem: seq<Inode>, owner: map<nat, Owner>,
                   disk0: seq<Block>, mem0: seq<Inode>, f: nat, off: nat, piece: seq<byte>)
    requires Building(sb, disk, used, mem, owner) && f < |mem| == |mem0|
    requires 0 < |piece| && off % BSIZE + |piece| <= BSIZE && off / BSIZE < MAXFILE
    requires Grown(sb, disk0, mem0, Marked(sb, disk, used), mem, f)
    requires RefOf(Marked(sb, disk, used), mem, f, SlotOf(off / BSIZE)) != 0
    requires RefOf(disk0, mem0, f, SlotOf(off / BSIZE)) != 0 ==> mem == mem0
    ensures var x := RefOf(Marked(sb, disk, used), mem, f, SlotOf(off / BSIZE));
      DataStart(sb) <= x < used &&
      var disk' := disk[x := Patch(disk[x], off % BSIZE, piece)];
      Building(sb, disk', used, mem, owner) && Wrote(sb, disk0, mem0, Marked(sb, disk', used), mem, f, off, piece)
  {
    hide Bit, ReadSb, Owns, Grown, RefOf, FirstBits, Wrote, Patch;
    var seen := Marked(sb, disk, used);
    var x := RefOf(seen, mem, f, SlotOf(off / BSIZE));
    HeldBelow(sb, disk, used, mem, owner, f, SlotOf(off / BSIZE));
    WroteOne(sb, disk0, mem0, seen, mem, owner, f, off, piece);
    var disk' := disk[x := Patch(disk[x], off % BSIZE, piece)];
    assert Marked(sb, disk', used) == seen[x := Patch(seen[x], off % BSIZE, piece)];
  }

  /** winode: writing an inode that maps the same blocks. */
  lemma InodeWritten(sb: Superblock, disk: seq<Block>, used: nat, mem: seq<Inode>, owner: map<nat, Owner>, f: nat,
                     ip: Inode)
    requires Building(sb, disk, used, mem, owner) && f < |mem| && ip.addrs == mem[f].addrs
    ensures Building(sb, Stored(sb, disk, f, ip), used, mem[f := ip], owner)
    ensures var seen, mem' := Marked(sb, disk, used), mem[f := ip];
      SameFiles(seen, mem, seen, mem') && KeepsRefs(seen, mem, seen, mem')
    ensures var seen, mem', seen' := Marked(sb, disk, used), mem[f := ip], Marked(sb, Stored(sb, disk, f, ip), used);
      SameFiles(seen, mem', seen', mem') && SameRefs(seen, seen', mem')
    ensures var seen, seen' := Marked(sb, disk, used), Marked(sb, Stored(sb, disk, f, ip), used);
      forall g | 0 <= g < |mem| :: DiskInode(sb, seen', g) == if g == f then ip else DiskInode(sb, seen, g)
  {
    hide Bit, ReadSb, Owns, RefOf, FirstBits, PutWords, SameFiles, KeepsRefs;
    var seen, mem' := Marked(sb, disk, used), mem[f := ip];
    IBlockIsMeta(sb, f);
    var k := IBlock(sb, f);
    Restated(sb, seen, mem, owner, f, ip);
    var d := PutWords(disk[k], DWORDS * (f % IPB), Pack(ip));
    WriteInodeBlock(sb, seen, mem', owner, k, d);
    var seen' := Marked(sb, Stored(sb, disk, f, ip), used);
    assert seen' == seen[k := d] == Stored(sb, seen, f, ip);
    forall g | 0 <= g < |mem|
      ensures DiskInode(sb, seen', g) == if g == f then ip else DiskInode(sb, seen, g)
    {
      StoredReadsBack(sb, seen, f, ip, g);
    }
  }

  // ---------------------------------------------------------------- the empty image

  const NOINODE: Inode := Inode(0, 0, 0, 0, 0, NoAddrs(NDIRECT + 1))

  function NoAddrs(n: nat): (r: seq<word>)
    ensures |r| == n && forall k | 0 <= k < n :: r[k] == 0
  {
    if n == 0 then [] else NoAddrs(n - 1) + [0]
  }

  /** Blocks in front of the data: boot, super, log, inodes, bitmap. */
  function Nmeta(size: nat, nlog: nat, ninodes: nat): nat
  {
    2 + nlog + (ninodes / IPB + 1) + (size / BPB + 1)
  }

  function MkSb(size: nat, nlog: nat, ninodes: nat): (sb: Superblock)
    requires Nmeta(size, nlog, ninodes) <= size <= 0x7fff_ffff - BPB && ninodes < TWO32
    ensures LayoutOk(sb) && DataStart(sb) == Nmeta(size, nlog, ninodes) && sb.size == size && sb.ninodes == ninodes
    ensures Tiled(sb) && sb.nlog == nlog
  {
    Superblock(size, size - Nmeta(size, nlog, ninodes), ninodes, nlog, 2, 2 + nlog, 2 + nlog + (ninodes / IPB + 1))
  }

  /** Boot block, superblock, log, inodes, bitmap and data follow each other without a gap. */
  ghost predicate Tiled(sb: Superblock)
  {
    && sb.logstart == 2 && sb.logstart + sb.nlog == sb.inodestart
    && sb.inodestart + sb.ninodes / IPB + 1 == sb.bmapstart && DataStart(sb) + sb.nblocks == sb.size
  }

  function SbBlock(sb: Superblock): Block
  {
    PutWords(ZERO, 0, [sb.size, sb.nblocks, sb.ninodes, sb.nlog, sb.logstart, sb.inodestart, sb.bmapstart])
  }

  /** readsb reads what mkfs wrote. */
  lemma SbReadsBack(sb: Superblock)
    ensures ReadSb(SbBlock(sb)) == sb
  {
    hide Word, PutWords;
    var ws := [sb.size, sb.nblocks, sb.ninodes, sb.nlog, sb.logstart, sb.inodestart, sb.bmapstart];
    forall j: nat | j < 7
      ensures Word(PutWords(ZERO, 0, ws), j) == ws[j]
    {
      PutWordsThenWord(ZERO, 0, ws, j);
    }
  }

  function EmptyImage(sb: Superblock): (r: seq<Block>)
    requires LayoutOk(sb)
    ensures |r| == sb.size && forall k | 0 <= k < sb.size :: r[k] == if k == 1 then SbBlock(sb) else ZERO
  {
    ZeroBlocks(sb.size)[1 := SbBlock(sb)]
  }

  function ZeroBlocks(n: nat): (r: seq<Block>)
    ensures |r| == n && forall k | 0 <= k < n :: r[k] == ZERO
  {
    if n == 0 then [] else ZeroBlocks(n - 1) + [ZERO]
  }

  function NoInodes(n: nat): (r: seq<Inode>)
    ensures |r| == n && forall k | 0 <= k < n :: r[k] == NOINODE
  {
    seq(n, _ => NOINODE)
  }

  lemma ZeroInode(k: nat)
    requires k < IPB
    ensures Unpack(DinodeWords(ZERO, k)) == NOINODE
  {
    hide DinodeWords, Word;
    var ws := DinodeWords(ZERO, k);
    forall i | 0 <= i < DWORDS
      ensures ws[i] == 0
    {
      ZeroWord(DWORDS * k + i);
    }
    assert ws[3..] == NoAddrs(NDIRECT + 1);
  }

  lemma EmptyImageBuilding(sb: Superblock)
    requires LayoutOk(sb) && DataStart(sb) <= BPB
    ensures Building(sb, EmptyImage(sb), DataStart(sb), NoInodes(sb.ninodes), map[])
  {
    hide ReadSb, Bit, SbBlock, EmptyImage, FirstBits;
    var disk, used := EmptyImage(sb), DataStart(sb);
    SbReadsBack(sb);
    var seen := Marked(sb, disk, used);
    forall b | 0 <= b < sb.size
      ensures Bit(sb, seen, b) <==> b < used
    {
      MarkedBit(sb, disk, used, b);
    }
  }

  lemma EmptyImageSettled(sb: Superblock)
    requires LayoutOk(sb) && DataStart(sb) <= BPB
    ensures DiskOk(sb, EmptyImage(sb)) && Settled(sb, Marked(sb, EmptyImage(sb), DataStart(sb)), NoInodes(sb.ninodes))
    ensures FilesOf(Marked(sb, EmptyImage(sb), DataStart(sb)), NoInodes(sb.ninodes)) == NoFiles(sb.ninodes)
  {
    hide ReadSb, SbBlock, EmptyImage, FirstBits, DinodeWords, RefOf, View, Unpack;
    SbReadsBack(sb);
    var disk, mem := EmptyImage(sb), NoInodes(sb.ninodes);
    var seen := Marked(sb, disk, DataStart(sb));
    forall g | 0 <= g < |mem|
      ensures DiskInode(sb, seen, g) == mem[g] && TailZero(seen, mem, g)
    {
      IBlockIsMeta(sb, g);
      ZeroInode(g % IPB);
      EmptyTail(seen, mem, g);
    }
  }

  function NoFiles(n: nat): (r: seq<seq<byte>>)
    ensures |r| == n && forall k | 0 <= k < n :: r[k] == []
  {
    seq(n, _ => [])
  }

  class Image {
    const sb: Superblock
    var disk: seq<Block>
    var freeblock: nat
    var freeinode: nat
    ghost var mem: seq<Inode>        // each inode, with the one iappend holds in din
    ghost var owner: map<nat, Owner>

    ghost predicate Ok()
      reads this
    {
      Building(sb, disk, freeblock, mem, owner)
    }

    /** The image as it will be once the bitmap is written. */
    ghost function Seen(): seq<Block>
      requires Ok()
      reads this
    {
      Marked(sb, disk, freeblock)
    }

    /** The image has a block left that the bitmap can mark. */
    ghost predicate Room()
      reads this
    {
      freeblock < Limit(sb)
    }

    /** The mapping half of a turn of iappend: the block number of block fbn, counting out the
        blocks it needs. */
    method MapBlock(f: nat, din: Inode, fbn: nat) returns (ok: bool, x: nat, din': Inode)
      requires Ok() && f < |mem| && mem[f] == din && fbn < MAXFILE
      modifies this
      ensures Ok() && |mem| == old(|mem|) && mem[f] == din' && freeinode == old(freeinode)
      ensures Grown(sb, old(Seen()), old(mem), Seen(), mem, f)
      ensures ok ==> x == RefOf(Seen(), mem, f, SlotOf(fbn)) != 0
      ensures ok && old(RefOf(Seen(), mem, f, SlotOf(fbn))) != 0 ==> mem == old(mem)
      ensures ok <==> old(freeblock) + New(old(owner.Values), f, fbn) <= Limit(sb)
      ensures ok ==> freeblock == old(freeblock) + New(old(owner.Values), f, fbn)
      ensures ok ==> owner.Values == old(owner.Values) + Wants(f, fbn)
    {
      hide Bit, ReadSb, Owns, Grown, FirstBits, Word, Blank;
      GrownRefl(sb, Seen(), mem, f);
      SlotHeld(sb, disk, freeblock, mem, owner, f, SlotOf(fbn));
      SlotHeld(sb, disk, freeblock, mem, owner, f, NDIRECT);
      x, din' := 0, din;
      if fbn < NDIRECT {
        if din'.addrs[fbn] == 0 {
          ok, din' := CountOutDirect(f, din', fbn);
          if !ok { return; }
        }
        return true, din'.addrs[fbn], din';
      }
      if din'.addrs[NDIRECT] == 0 {
        ok, din' := CountOutDirect(f, din', NDIRECT);
        if !ok { return; }
      }
      ghost var seen1, mem1 := Seen(), mem;
      var j := fbn - NDIRECT;
      assert RefOf(Seen(), mem, f, NDIRECT) == din'.addrs[NDIRECT];
      HeldBelow(sb, disk, freeblock, mem, owner, f, NDIRECT);
      SlotHeld(sb, disk, freeblock, mem, owner, f, SlotOf(fbn));
      var bp := din'.addrs[NDIRECT];
      x := Word(disk[bp], j);
      ok := true;
      if x == 0 {
        ok, x := CountOutEntry(f, din', j);
        GrownTwice(sb, old(Seen()), old(mem), seen1, mem1, Seen(), mem, f);
      }
    }

    method CountOutDirect(f: nat, din: Inode, s: nat) returns (ok: bool, din': Inode)
      requires Ok() && f < |mem| && mem[f] == din && s <= NDIRECT && din.addrs[s] == 0
      modifies this
      ensures Ok() && |mem| == old(|mem|) && mem[f] == din' && freeinode == old(freeinode)
      ensures Grown(sb, old(Seen()), old(mem), Seen(), mem, f)
      ensures ok ==> din'.addrs[s] != 0 && RefOf(Seen(), mem, f, s) == din'.addrs[s]
      ensures ok <==> old(Room())
      ensures ok ==> freeblock == old(freeblock) + 1 && owner.Values == old(owner.Values) + {Owner(f, s)}
      ensures !ok ==> freeblock == old(freeblock)
    {
      hide Bit, ReadSb, Owns, Grown, Marked, Blank;
      GrownRefl(sb, Seen(), mem, f);
      din' := din;
      ok := freeblock < Limit(sb);
      if ok {
        NextIsFree(sb, disk, freeblock, mem, owner);
        ValuesPlus(owner, freeblock, Owner(f, s));
        CountDirect(sb, disk, freeblock, mem, owner, f, s);
        din' := WithAddr(din, s, freeblock);
        mem := mem[f := din'];
        owner := owner[freeblock := Owner(f, s)];
        freeblock := freeblock + 1;
      }
    }

    method CountOutEntry(f: nat, din: Inode, j: nat) returns (ok: bool, x: nat)
      requires Ok() && f < |mem| && mem[f] == din && j < WORDS && din.addrs[NDIRECT] != 0
      requires RefOf(Seen(), mem, f, NDIRECT + 1 + j) == 0
      modifies this
      ensures Ok() && mem == old(mem) && freeinode == old(freeinode)
      ensures Grown(sb, old(Seen()), old(mem), Seen(), mem, f)
      ensures ok ==> x != 0 && RefOf(Seen(), mem, f, NDIRECT + 1 + j) == x
      ensures ok <==> old(Room())
      ensures ok ==> freeblock == old(freeblock) + 1 && owner.Values == old(owner.Values) + {Owner(f, NDIRECT + 1 + j)}
    {
      hide Bit, ReadSb, Owns, Grown, Marked, Blank, RefOf, SetWord;
      GrownRefl(sb, Seen(), mem, f);
      x := freeblock;
      ok := freeblock < Limit(sb);
      if ok {
        NextIsFree(sb, disk, freeblock, mem, owner);
        ValuesPlus(owner, x, Owner(f, NDIRECT + 1 + j));
        CountEntry(sb, disk, freeblock, mem, owner, f, j);
        var bp := din.addrs[NDIRECT];
        disk := disk[bp := SetWord(disk[bp], j, x)];
        owner := owner[x := Owner(f, NDIRECT + 1 + j)];
        freeblock := freeblock + 1;
      }
    }

    /** One turn of the loop of iappend. */
    method AppendStep(f: nat, din: Inode, off: nat, piece: seq<byte>) returns (ok: bool, din': Inode)
      requires Ok() && f < |mem| && mem[f] == din && 0 < |piece| && off % BSIZE + |piece| <= BSIZE
               && off / BSIZE < MAXFILE
      requires Exact(owner.Values, f, off)
      modifies this
      ensures Ok() && |mem| == old(|mem|) && mem[f] == din' && freeinode == old(freeinode)
      ensures ok ==> Wrote(sb, old(Seen()), old(mem), Seen(), mem, f, off, piece)
      ensures ok <==> old(freeblock) + BlocksFor(off + |piece|) - BlocksFor(off) <= Limit(sb)
      ensures ok ==> Counted(old(owner.Values), owner.Values, f, off, off + |piece|, old(freeblock), freeblock)
    {
      hide Bit, ReadSb, Owns, Grown, Blank, RefOf, Patch, Wrote, FirstBits, BlocksFor, Exact, New;
      var x;
      GrowExact(owner.Values, f, off, off + |piece|);
      ok, x, din' := MapBlock(f, din, off / BSIZE);
      if ok {
        PatchBelow(sb, disk, freeblock, mem, owner, old(Seen()), old(mem), f, off, piece);
        disk := disk[x := Patch(disk[x], off % BSIZE, piece)];
      }
    }

    /** iappend: data goes after the last byte of f. It stops only when the file would exceed
        MAXFILE blocks or the image is out of blocks. */
    method Iappend(f: nat, data: seq<byte>) returns (ok: bool)
      requires Ok() && f < |mem| && SizesOk(mem) && SyncedBut(sb, Seen(), mem, -1)
               && Exact(owner.Values, f, mem[f].size)
      modifies this
      ensures Ok() && |mem| == old(|mem|) && freeinode == old(freeinode)
      ensures ok ==> WriteResult(sb, old(Seen()), old(mem), Seen(), mem, f, old(mem[f].size), data)
      ensures ok ==> mem[f].size == old(mem[f].size) + |data|
      ensures ok <==> FitsMore(sb, old(freeblock), old(mem[f].size), old(mem[f].size) + |data|)
      ensures ok ==>
                Counted(old(owner.Values), owner.Values, f, old(mem[f].size), mem[f].size, old(freeblock), freeblock)
    {
      hide Bit, ReadSb, Owns, RefOf, Blank, DinodeWords, FirstBits, Overlaid, Mapped, SameFile, KeepsRefs, Exact,
           BlocksFor;
      SeenInode(f);
      var din := DiskInode(sb, disk, f);
      assert din == mem[f] == DiskInode(sb, Seen(), f);
      var start := din.size;
      ok, din := AppendAll(f, din, start, data);
      if !ok { return; }
      ghost var seen1, mem1 := Seen(), mem;
      din := din.(size := start + |data|);
      WriteInode(f, din);
      GrewResult(sb, old(Seen()), old(mem), seen1, mem1, Seen(), mem, f, start, data);
    }

    /** The loop of iappend. */
    method AppendAll(f: nat, ip: Inode, start: nat, data: seq<byte>) returns (ok: bool, din: Inode)
      requires Ok() && f < |mem| && mem[f] == ip && start <= MAXBYTES && Exact(owner.Values, f, start)
      modifies this
      ensures Ok() && |mem| == old(|mem|) && freeinode == old(freeinode) && mem[f] == din
      ensures ok <==> FitsMore(sb, old(freeblock), start, start + |data|)
      ensures ok ==> Wrote(sb, old(Seen()), old(mem), Seen(), mem, f, start, data)
      ensures ok ==> Counted(old(owner.Values), owner.Values, f, start, start + |data|, old(freeblock), freeblock)
    {
      hide Bit, ReadSb, Owns, RefOf, Blank, FirstBits, Overlaid, Mapped, SameFile, KeepsRefs, Building, Exact,
           BlocksFor;
      UnderLimit(sb, disk, freeblock, mem, owner);
      din := ip;
      var off, tot, n := start, 0, |data|;
      WroteEmpty(sb, Seen(), mem, f, start);
      assert data[..0] == [];
      hide Wrote;
      while tot < n
        invariant 0 <= tot <= n && off == start + tot <= MAXBYTES
        invariant Ok() && |mem| == old(|mem|) && mem[f] == din && freeinode == old(freeinode)
        invariant Wrote(sb, old(Seen()), old(mem), Seen(), mem, f, start, data[..tot])
        invariant Counted(old(owner.Values), owner.Values, f, start, off, old(freeblock), freeblock)
                  && freeblock <= Limit(sb)
      {
        var fbn := off / BSIZE;
        if fbn >= MAXFILE {
          ok := false;
          return;
        }
        ghost var seen1, mem1, held1, fb1 := Seen(), mem, owner.Values, freeblock;
        var m := Min(n - tot, (fbn + 1) * BSIZE - off);
        MoreBlocks(off + m, start + |data|);
        ok, din := AppendStep(f, din, off, data[tot..tot + m]);
        if !ok { return; }
        CountedTwice(old(owner.Values), held1, owner.Values, f, start, off, off + m, old(freeblock), fb1, freeblock);
        WroteTwice(sb, old(Seen()), old(mem), seen1, mem1, Seen(), mem, f, start, data[..tot], data[tot..tot + m]);
        assert data[..tot] + data[tot..tot + m] == data[..tot + m];
        tot, off := tot + m, off + m;
      }
      assert data[..n] == data;
      ok := true;
    }

    lemma SeenInode(f: nat)
      requires Ok() && f < sb.ninodes
      ensures DiskInode(sb, disk, f) == DiskInode(sb, Seen(), f)
    {
      hide Bit, ReadSb, Owns, FirstBits, DinodeWords;
      IBlockIsMeta(sb, f);
    }

    method WriteInode(f: nat, ip: Inode)
      requires Ok() && f < |mem| && ip.addrs == mem[f].addrs
      modifies this`disk, this`mem
      ensures Ok() && mem == old(mem)[f := ip]
      ensures SameFiles(old(Seen()), old(mem), old(Seen()), mem) && SameFiles(old(Seen()), mem, Seen(), mem)
      ensures KeepsRefs(old(Seen()), old(mem), old(Seen()), mem) && SameRefs(old(Seen()), Seen(), mem)
      ensures forall g | 0 <= g < |mem| ::
                DiskInode(sb, Seen(), g) == if g == f then ip else DiskInode(sb, old(Seen()), g)
    {
      hide Bit, ReadSb, Owns, RefOf, FirstBits, PutWords, SameFiles, KeepsRefs, Blank, DinodeWords;
      InodeWritten(sb, disk, freeblock, mem, owner, f, ip);
      IBlockIsMeta(sb, f);
      var k := IBlock(sb, f);
      disk := disk[k := PutWords(disk[k], DWORDS * (f % IPB), Pack(ip))];
      mem := mem[f := ip];
    }

    /** Between two calls of ialloc and iappend: settled, with the inodes from freeinode on unused,
        and with exactly the blocks counted out that the files need. */
    ghost predicate Ready()
      reads this
    {
      && Ok() && Settled(sb, Seen(), mem) && (forall g | freeinode <= g < |mem| :: mem[g] == NOINODE)
      && AllExact(owner.Values, mem) && freeblock == DataStart(sb) + Need(FilesOf(Seen(), mem))
    }

    /** The start of main: zeroed sectors, then the superblock. */
    constructor (size: nat, nlog: nat, ninodes: nat)
      requires Nmeta(size, nlog, ninodes) <= size <= 0x7fff_ffff - BPB && Nmeta(size, nlog, ninodes) <= BPB
      requires ninodes < TWO32
      ensures Ready() && sb == MkSb(size, nlog, ninodes) && freeinode == 1
      ensures FilesOf(Seen(), mem) == NoFiles(ninodes) && mem == NoInodes(ninodes)
    {
      hide Nmeta, EmptyImage, Building, Settled, FilesOf, AllExact, Need, Marked, NoInodes, NoFiles, DataStart;
      sb := MkSb(size, nlog, ninodes);
      disk := EmptyImage(MkSb(size, nlog, ninodes));
      freeblock := Nmeta(size, nlog, ninodes);
      freeinode := 1;
      mem := NoInodes(ninodes);
      owner := map[];
      new;
      EmptyImageBuilding(sb);
      EmptyImageSettled(sb);
      NeedNothing(NoFiles(ninodes));
      NothingHeld(ninodes);
    }

    /** ialloc: the next inode, empty, with one link. */
    method Ialloc(kind: half) returns (inum: nat)
      requires Ready() && freeinode < |mem|
      modifies this
      ensures Ready() && inum == old(freeinode) && freeinode == inum + 1 && |mem| == old(|mem|)
      ensures mem == old(mem)[inum := NOINODE.(kind := kind, nlink := 1)]
      ensures FilesOf(Seen(), mem) == old(FilesOf(Seen(), mem))
    {
      hide Blank, Owns, AllMapped, AllTails, SyncedBut, SizesOk, FilesOf, Marked, DiskOk, SameFiles, KeepsRefs,
           SameRefs;
      inum := freeinode;
      freeinode := freeinode + 1;
      ghost var seen0, mem0 := Seen(), mem;
      assert mem[inum] == NOINODE;
      assert AllExact(owner.Values, mem[inum := NOINODE.(kind := kind, nlink := 1)]);
      WriteInode(inum, NOINODE.(kind := kind, nlink := 1));
      NewInodeSettles(sb, seen0, mem0, Seen(), mem, inum);
    }

    /** iappend between settled states: the bytes of f grow by data and no other file changes. */
    method Append(f: nat, data: seq<byte>) returns (ok: bool)
      requires Ready() && f < freeinode && f < |mem|
      modifies this
      ensures Ok() && |mem| == old(|mem|) && freeinode == old(freeinode)
      ensures ok ==> Ready() && FilesOf(Seen(), mem) == old(FilesOf(Seen(), mem))[f := old(Data(Seen(), mem, f)) + data]
      ensures ok ==> mem == old(mem)[f := old(mem[f]).(size := mem[f].size, addrs := mem[f].addrs)]
      ensures ok <==> Fits(sb, old(FilesOf(Seen(), mem))[f := old(Data(Seen(), mem, f)) + data])
    {
      hide Blank, Owns, Marked, AllMapped, AllTails, SyncedBut, Data, FilesOf, Exact, BlocksFor, Need;
      FitsUpdate(sb, Seen(), mem, f, data);
      ok := Iappend(f, data);
      if ok {
        AppendSettles(sb, old(Seen()), old(mem), Seen(), mem, f, data);
        StillExact(old(owner.Values), old(mem), owner.Values, mem, f, old(freeblock), freeblock);
      }
    }

    /** "fix size of root inode dir": the size is rounded up to the next block boundary. The file
        gains zero bytes; it keeps all its blocks mapped unless the size was on a boundary already
        and the block after it is missing, as it always is in an image that was only appended to. A
        file of MAXFILE full blocks gets a size that no file may have. */
    method FixSize(f: nat)
      requires Ready() && f < freeinode && f < |mem|
      modifies this
      ensures Ok() && |mem| == old(|mem|) && freeinode == old(freeinode) && owner == old(owner)
      ensures mem == old(mem)[f := old(mem[f]).(size := mem[f].size)]
      ensures SizesOk(mem) <==> old(mem[f].size) < MAXBYTES
      ensures old(mem[f].size) < MAXBYTES ==>
        FilesOf(Seen(), mem) == old(FilesOf(Seen(), mem)[f := RoundedUp(Data(Seen(), mem, f))])
      ensures Settled(sb, Seen(), mem) <==> old(mem[f].size) % BSIZE != 0
      ensures SyncedBut(sb, Seen(), mem, -1) && freeblock == old(freeblock)
      ensures Ready() <==> old(mem[f].size) % BSIZE != 0
    {
      hide Blank, Owns, Marked, Data, FilesOf, RefOf, SameFile, DiskInode, TailZero, KeepsRefs, Need;
      SeenInode(f);
      if mem[f].size < MAXBYTES {
        SpareBlock(sb, disk, freeblock, mem, owner, f);
        NeedUpdate(FilesOf(Seen(), mem), f, RoundedUp(Data(Seen(), mem, f)));
      }
      var din := DiskInode(sb, disk, f);
      ghost var seen0, mem0 := Seen(), mem;
      var off := (din.size / BSIZE + 1) * BSIZE;
      WriteInode(f, din.(size := off));
      if mem0[f].size < MAXBYTES {
        RoundedSettles(sb, seen0, mem0, Seen(), mem, f);
      } else {
        assert mem0[f].size == MAXBYTES && mem[f].size == MAXBYTES + BSIZE;
      }
    }

    /** balloc of mkfs.c, the last step: the bitmap sector. The image is then a state of the kernel
        in which exactly the blocks below freeblock are marked. */
    method WriteBitmap() returns (ok: bool)
      requires Ok()
      modifies this`disk
      ensures ok <==> freeblock < BPB
      ensures ok ==> disk == old(Seen()) && Owns(sb, disk, mem, owner, {})
      ensures ok ==> Exclusive(sb, disk, mem) && forall b | 0 <= b < sb.size :: Bit(sb, disk, b) <==> b < freeblock
    {
      hide Bit, ReadSb, Settled, Exclusive, BitsMatch, OwnersRight, RefsOwned;
      ok := freeblock < BPB;
      if ok {
        var buf, i := ZERO, 0;
        while i < freeblock
          invariant 0 <= i <= freeblock && buf == FirstBits(i)
        {
          buf := BlockWithBit(buf, i, true);
          i := i + 1;
        }
        forall b | 0 <= b < sb.size
          ensures Bit(sb, Seen(), b) <==> b < freeblock
        {
          MarkedBit(sb, disk, freeblock, b);
        }
        OwnsMeansExclusive(sb, Seen(), mem, owner);
        disk := disk[sb.bmapstart := buf];
      }
    }
  }

  /** How far freeblock may count: to the end of the disk, or of the one bitmap block. */
  function Limit(sb: Superblock): nat
  {
    if sb.size < BPB then sb.size else BPB
  }

  /** The files can be built: none is too long, and their blocks can all be counted out. */
  ghost predicate Fits(sb: Superblock, files: seq<seq<byte>>)
  {
    (forall i | 0 <= i < |files| :: |files[i]| <= MAXBYTES) && DataStart(sb) + Need(files) <= Limit(sb)
  }

  lemma UnderLimit(sb: Superblock, disk: seq<Block>, used: nat, mem: seq<Inode>, owner: map<nat, Owner>)
    requires Building(sb, disk, used, mem, owner)
    ensures used <= Limit(sb)
  {
  }

  ghost predicate FitsMore(sb: Superblock, used: nat, off: nat, end: nat)
  {
    end <= MAXBYTES && used + BlocksFor(end) - BlocksFor(off) <= Limit(sb)
  }

  lemma FitsUpdate(sb: Superblock, disk: seq<Block>, mem: seq<Inode>, f: nat, data: seq<byte>)
    requires f < |mem| && SizesOk(mem)
    ensures Fits(sb, FilesOf(disk, mem)[f := Data(disk, mem, f) + data]) <==>
      FitsMore(sb, DataStart(sb) + Need(FilesOf(disk, mem)), mem[f].size, mem[f].size + |data|)
    ensures Need(FilesOf(disk, mem)[f := Data(disk, mem, f) + data])
      == Need(FilesOf(disk, mem)) + BlocksFor(mem[f].size + |data|) - BlocksFor(mem[f].size)
  {
    hide Data, Need, BlocksFor;
    var files := FilesOf(disk, mem);
    assert forall i | 0 <= i < |files| :: |files[i]| == mem[i].size <= MAXBYTES;
    NeedUpdate(files, f, Data(disk, mem, f) + data);
    var more := files[f := Data(disk, mem, f) + data];
    assert more[f] == Data(disk, mem, f) + data;
  }

  ghost predicate AllExact(held: set<Owner>, mem: seq<Inode>)
  {
    forall g | 0 <= g < |mem| :: Exact(held, g, mem[g].size)
  }

  lemma NothingHeld(ninodes: nat)
    ensures var none: map<nat, Owner> := map[]; AllExact(none.Values, NoInodes(ninodes))
  {
  }

  lemma StillExact(held: set<Owner>, mem: seq<Inode>, held': set<Owner>, mem': seq<Inode>, f: nat, fb: nat, fb': nat)
    requires AllExact(held, mem) && f < |mem| == |mem'| && Counted(held, held', f, mem[f].size, mem'[f].size, fb, fb')
    requires forall g | 0 <= g < |mem| && g != f :: mem'[g] == mem[g]
    ensures AllExact(held', mem')
  {
    forall g | 0 <= g < |mem| && g != f
      ensures Exact(held', g, mem'[g].size)
    {
      assert Exact(held, g, mem[g].size);
    }
  }

  /** Nothing is mapped past the end of a file that was only appended to. */
  lemma SpareBlock(sb: Superblock, disk: seq<Block>, used: nat, mem: seq<Inode>, owner: map<nat, Owner>, f: nat)
    requires Building(sb, disk, used, mem, owner) && AllExact(owner.Values, mem) && f < |mem| && mem[f].size < MAXBYTES
    ensures LastIsMapped(Marked(sb, disk, used), mem, f) <==> mem[f].size % BSIZE != 0
    ensures var off := (mem[f].size / BSIZE + 1) * BSIZE;
      mem[f].size % BSIZE != 0 ==> BlocksFor(off) == BlocksFor(mem[f].size) && Exact(owner.Values, f, off)
  {
    hide Building, Marked, RefOf;
    SlotHeld(sb, disk, used, mem, owner, f, SlotOf(mem[f].size / BSIZE));
    assert Exact(owner.Values, f, mem[f].size);
  }

  lemma AppendSettles(sb: Superblock, disk: seq<Block>, mem: seq<Inode>, disk': seq<Block>, mem': seq<Inode>, f: nat,
                      data: seq<byte>)
    requires Settled(sb, disk, mem) && DiskOk(sb, disk') && f < |mem| == |mem'|
    requires WriteResult(sb, disk, mem, disk', mem', f, mem[f].size, data)
    ensures Settled(sb, disk', mem')
    ensures FilesOf(disk', mem') == FilesOf(disk, mem)[f := Data(disk, mem, f) + data]
  {
    hide Data, SameFile, KeepsRefs, NoHoles, TailZero, DiskInode, ReadSb, FilesOf;
    WriteSettles(sb, disk, mem, disk', mem', f, mem[f].size, data);
    OthersKeep(disk, mem, disk', mem', f);
    assert Spliced(Data(disk, mem, f), mem[f].size, data) == Data(disk, mem, f) + data;
  }

  function RoundedUp(bytes: seq<byte>): seq<byte>
  {
    bytes + Zeros(BSIZE - |bytes| % BSIZE)
  }

  /** The block that holds the byte after the last is there: surely so inside a block, but on a
      block boundary only if it was mapped ahead. */
  ghost predicate LastIsMapped(disk: seq<Block>, mem: seq<Inode>, f: nat)
    requires f < |mem| && mem[f].size < MAXBYTES
  {
    mem[f].size % BSIZE != 0 || RefOf(disk, mem, f, SlotOf(mem[f].size / BSIZE)) != 0
  }

  lemma RoundedData(disk: seq<Block>, mem: seq<Inode>, disk': seq<Block>, mem': seq<Inode>, f: nat)
    requires f < |mem| == |mem'| && SameFile(disk, mem, disk', mem', f) && TailZero(disk, mem, f)
    requires mem[f].size <= mem'[f].size <= MAXBYTES
    ensures Data(disk', mem', f) == Data(disk, mem, f) + Zeros(mem'[f].size - mem[f].size)
  {
    hide Content, Bytes;
    var now, was := Data(disk', mem', f), Data(disk, mem, f) + Zeros(mem'[f].size - mem[f].size);
    forall k | 0 <= k < mem'[f].size
      ensures now[k] == was[k]
    {
      assert Content(disk', mem', f, k / BSIZE) == Content(disk, mem, f, k / BSIZE);
      assert now[k] == View(disk', mem', f, k) == View(disk, mem, f, k);
    }
  }

  lemma RoundedSettles(sb: Superblock, disk: seq<Block>, mem: seq<Inode>, disk': seq<Block>, mem': seq<Inode>, f: nat)
    requires Settled(sb, disk, mem) && DiskOk(sb, disk') && f < |mem| == |mem'| && mem[f].size < MAXBYTES
    requires mem' == mem[f := mem'[f]] && mem'[f].size == (mem[f].size / BSIZE + 1) * BSIZE
    requires SameFiles(disk, mem, disk, mem') && SameFiles(disk, mem', disk', mem')
             && KeepsRefs(disk, mem, disk, mem') && SameRefs(disk, disk', mem')
    requires mem'[f].addrs == mem[f].addrs
    requires forall g | 0 <= g < |mem| :: DiskInode(sb, disk', g) == if g == f then mem'[f] else DiskInode(sb, disk, g)
    ensures SizesOk(mem')
    ensures FilesOf(disk', mem') == FilesOf(disk, mem)[f := RoundedUp(Data(disk, mem, f))]
    ensures SyncedBut(sb, disk', mem', -1) && (Settled(sb, disk', mem') <==> LastIsMapped(disk, mem, f))
  {
    hide ReadSb, DiskInode, SameFile, RefOf, View, TailZero, Data, FilesOf;
    SameRefsKeep(disk, disk', mem');
    KeepsTwice(disk, mem, disk, mem', disk', mem');
    forall g | 0 <= g < |mem|
      ensures SameFile(disk, mem, disk', mem', g) && TailZero(disk', mem', g)
    {
      SameTwice(disk, mem, disk, mem', disk', mem', g);
      SameTail(disk, mem, disk', mem', g);
    }
    OthersKeep(disk, mem, disk', mem', f);
    RoundedData(disk, mem, disk', mem', f);
    forall g | 0 <= g < |mem| && g != f
      ensures NoHoles(disk', mem', g)
    {
      assert NoHoles(disk, mem, g);
    }
    RoundedHoles(disk, mem, disk', mem', f);
  }

  lemma RoundedHoles(disk: seq<Block>, mem: seq<Inode>, disk': seq<Block>, mem': seq<Inode>, f: nat)
    requires f < |mem| == |mem'| && mem[f].size < MAXBYTES && NoHoles(disk, mem, f)
    requires mem'[f].size == (mem[f].size / BSIZE + 1) * BSIZE && mem'[f].addrs == mem[f].addrs
    requires SameRefs(disk, disk', mem')
    ensures NoHoles(disk', mem', f) <==> LastIsMapped(disk, mem, f)
  {
    hide Word;
    var last := mem[f].size / BSIZE;
    forall bn | 0 <= bn < MAXFILE
      ensures RefOf(disk', mem', f, SlotOf(bn)) == RefOf(disk, mem, f, SlotOf(bn))
      ensures bn * BSIZE < mem'[f].size <==> bn <= last
      ensures bn < last ==> bn * BSIZE < mem[f].size
    {
      assert RefOf(disk', mem', f, SlotOf(bn)) == RefOf(disk, mem', f, SlotOf(bn));
    }
    assert last * BSIZE < mem[f].size <==> mem[f].size % BSIZE != 0;
  }

  lemma NewInodeSettles(sb: Superblock, disk: seq<Block>, mem: seq<Inode>, disk': seq<Block>, mem': seq<Inode>, f: nat)
    requires Settled(sb, disk, mem) && DiskOk(sb, disk') && f < |mem| && mem[f] == NOINODE
    requires |mem'| == |mem| && mem' == mem[f := mem'[f]] && mem'[f].size == 0
    requires SameFiles(disk, mem, disk, mem') && SameFiles(disk, mem', disk', mem')
             && KeepsRefs(disk, mem, disk, mem') && SameRefs(disk, disk', mem')
    requires forall g | 0 <= g < |mem| :: DiskInode(sb, disk', g) == if g == f then mem'[f] else DiskInode(sb, disk, g)
    ensures Settled(sb, disk', mem') && FilesOf(disk', mem') == FilesOf(disk, mem)
  {
    hide ReadSb, DiskInode, SameFile, RefOf, View, TailZero, Data;
    SameRefsKeep(disk, disk', mem');
    KeepsTwice(disk, mem, disk, mem', disk', mem');
    var now, was := FilesOf(disk', mem'), FilesOf(disk, mem);
    forall g | 0 <= g < |mem|
      ensures now[g] == was[g] && TailZero(disk', mem', g)
    {
      SameTwice(disk, mem, disk, mem', disk', mem', g);
      SameData(disk, mem, disk', mem', g);
      SameTail(disk, mem, disk', mem', g);
    }
    forall g | 0 <= g < |mem| && g != f
      ensures NoHoles(disk', mem', g)
    {
      assert NoHoles(disk, mem, g);
    }
  }

  // ---------------------------------------------------------------- whole builds

  datatype Step = NewFile(kind: half) | AppendTo(f: nat, data: seq<byte>)

  function News(steps: seq<Step>): nat
  {
    if steps == [] then 0 else News(steps[..|steps| - 1]) + (if steps[|steps| - 1].NewFile? then 1 else 0)
  }

  /** Each append names an inode handed out before it, and the inodes suffice. */
  ghost predicate StepsOk(steps: seq<Step>, first: nat, ninodes: nat)
  {
    && first + News(steps) <= ninodes
    && forall i | 0 <= i < |steps| && steps[i].AppendTo? :: steps[i].f < first + News(steps[..i])
  }

  lemma {:induction false} NewsGrow(steps: seq<Step>, i: nat)
    requires i <= |steps|
    ensures News(steps[..i]) <= News(steps)
    decreases |steps|
  {
    if i < |steps| {
      var rest := steps[..|steps| - 1];
      NewsGrow(rest, i);
      assert rest[..i] == steps[..i];
    } else {
      assert steps[..i] == steps;
    }
  }

  /** Each file is the concatenation of what was appended to it. */
  function Concatenated(files: seq<seq<byte>>, steps: seq<Step>): (r: seq<seq<byte>>)
    ensures |r| == |files|
  {
    if steps == [] then files
    else
      OneMore(Concatenated(files, steps[..|steps| - 1]), steps[|steps| - 1])
  }

  function OneMore(files: seq<seq<byte>>, step: Step): seq<seq<byte>>
  {
    if step.AppendTo? && step.f < |files| then files[step.f := files[step.f] + step.data] else files
  }

  lemma FitsNow(img: Image)
    requires img.Ready()
    ensures Fits(img.sb, FilesOf(img.Seen(), img.mem))
  {
    hide Blank, Owns, Marked, AllMapped, AllTails, SyncedBut, Data, Need;
  }

  lemma FitsLess(sb: Superblock, files: seq<seq<byte>>, more: seq<seq<byte>>)
    requires |files| == |more| && (forall i | 0 <= i < |files| :: |files[i]| <= |more[i]|) && Fits(sb, more)
    ensures Fits(sb, files)
  {
    hide Need;
    NeedLess(files, more);
  }

  lemma {:induction false} FitsBefore(sb: Superblock, files: seq<seq<byte>>, steps: seq<Step>, i: nat)
    requires i <= |steps| && Fits(sb, Concatenated(files, steps))
    ensures Fits(sb, Concatenated(files, steps[..i]))
    decreases |steps|
  {
    hide Fits;
    if i < |steps| {
      var m := |steps| - 1;
      FitsLess(sb, Concatenated(files, steps[..m]), Concatenated(files, steps));
      FitsBefore(sb, files, steps[..m], i);
      assert steps[..m][..i] == steps[..i];
    } else {
      assert steps[..i] == steps;
    }
  }

  method DoStep(img: Image, step: Step) returns (ok: bool)
    requires img.Ready()
             && (if step.NewFile? then img.freeinode < |img.mem| else step.f < img.freeinode && step.f < |img.mem|)
    modifies img
    ensures img.Ok() && |img.mem| == old(|img.mem|)
    ensures ok ==> img.Ready() && img.freeinode == old(img.freeinode) + (if step.NewFile? then 1 else 0)
    ensures ok ==> FilesOf(img.Seen(), img.mem) == OneMore(old(FilesOf(img.Seen(), img.mem)), step)
    ensures ok <==> Fits(img.sb, OneMore(old(FilesOf(img.Seen(), img.mem)), step))
  {
    hide Blank, Owns, Marked, AllMapped, AllTails, SyncedBut, Data, Need;
    ok := true;
    match step
    case NewFile(kind) =>
      var _ := img.Ialloc(kind);
      FitsNow(img);
    case AppendTo(f, data) =>
      ok := img.Append(f, data);
  }

  lemma NextStep(steps: seq<Step>, first: nat, ninodes: nat, i: nat, files: seq<seq<byte>>)
    requires StepsOk(steps, first, ninodes) && i < |steps|
    ensures if steps[i].NewFile? then first + News(steps[..i]) < ninodes
      else steps[i].f < first + News(steps[..i]) <= ninodes
    ensures News(steps[..i + 1]) == News(steps[..i]) + (if steps[i].NewFile? then 1 else 0)
    ensures Concatenated(files, steps[..i + 1]) == OneMore(Concatenated(files, steps[..i]), steps[i])
  {
    assert steps[..i + 1][..i] == steps[..i];
    NewsGrow(steps, i);
    NewsGrow(steps, i + 1);
  }

  method Build(img: Image, steps: seq<Step>) returns (ok: bool)
    requires img.Ready() && StepsOk(steps, img.freeinode, |img.mem|)
    modifies img
    ensures img.Ok() && |img.mem| == old(|img.mem|)
    ensures ok ==> img.Ready() && FilesOf(img.Seen(), img.mem) == Concatenated(old(FilesOf(img.Seen(), img.mem)), steps)
    ensures ok <==> Fits(img.sb, Concatenated(old(FilesOf(img.Seen(), img.mem)), steps))
    ensures ok ==> img.freeinode == old(img.freeinode) + News(steps)
  {
    hide Fits, AllExact, Need, Building, AllMapped, AllTails, SyncedBut, SizesOk, FilesOf, Concatenated, OneMore,
         News, StepsOk, Marked;
    ghost var files, first := FilesOf(img.Seen(), img.mem), img.freeinode;
    var i := 0;
    ok := true;
    assert steps[..0] == [] && Concatenated(files, []) == files && News([]) == 0 by { FirstStep(files); }
    while i < |steps|
      invariant 0 <= i <= |steps| && |img.mem| == |files| && ok
      invariant img.Ready() && img.freeinode == first + News(steps[..i])
      invariant FilesOf(img.Seen(), img.mem) == Concatenated(files, steps[..i])
    {
      NextStep(steps, first, |files|, i, files);
      ok := DoStep(img, steps[i]);
      if !ok {
        if Fits(img.sb, Concatenated(files, steps)) { FitsBefore(img.sb, files, steps, i + 1); }
        return;
      }
      i := i + 1;
    }
    assert steps[..i] == steps;
    FitsNow(img);
  }

  lemma FirstStep(files: seq<seq<byte>>)
    ensures Concatenated(files, []) == files && News([]) == 0
  {
  }

  /** The kernel finds the files of the image, the root rounded up, and no block held twice. The file
      system is sound, that is without holes, exactly if the size of the root was not on a block
      boundary; and a root of MAXFILE full blocks now has a size that no file may have. */
  ghost predicate Mounted(fs: FileSys, files: seq<seq<byte>>, root: nat)
    requires fs.Ok()
    reads fs
  {
    && root < |files| == |fs.mem| && Exclusive(fs.sb, fs.disk, fs.mem)
    && (SizesOk(fs.mem) <==> |files[root]| < MAXBYTES)
    && (SizesOk(fs.mem) ==> FilesOf(fs.disk, fs.mem) == files[root := RoundedUp(files[root])])
    && (Sound(fs) <==> |files[root]| % BSIZE != 0)
  }

  /** mkfs, then the kernel: an empty image, any steps, the size of the root rounded up, the bitmap,
      a mount. It succeeds exactly if the files fit, and each file then reads as what was appended. */
  method MakeAndMount(size: nat, nlog: nat, ninodes: nat, steps: seq<Step>, root: nat) returns (ok: bool, fs: FileSys?)
    requires Nmeta(size, nlog, ninodes) <= size <= 0x7fff_ffff - BPB && Nmeta(size, nlog, ninodes) <= BPB
    requires ninodes < TWO32 && StepsOk(steps, 1, ninodes) && root < 1 + News(steps)
    ensures ok <==> FitsBitmap(MkSb(size, nlog, ninodes), Concatenated(NoFiles(ninodes), steps))
    ensures ok ==> fs != null && fs.Ok() && Mounted(fs, Concatenated(NoFiles(ninodes), steps), root)
  {
    hide Owns, Marked, Building, Settled, Data, SizesOk, Exclusive, FilesOf, Concatenated, Need, News, StepsOk, Sound,
         AllExact, RoundedUp;
    fs := null;
    var img := new Image(size, nlog, ninodes);
    assert root < ninodes by { RootExists(steps, 1, ninodes, root); }
    ok := Build(img, steps);
    if ok {
      ok, fs := Finish(img, root);
    }
  }

  lemma RootExists(steps: seq<Step>, first: nat, ninodes: nat, root: nat)
    requires StepsOk(steps, first, ninodes) && root < first + News(steps)
    ensures root < ninodes
  {
  }

  /** Only the size of inode f differs. */
  ghost predicate Resized(mem: seq<Inode>, mem': seq<Inode>, f: nat)
  {
    f < |mem| == |mem'| && mem' == mem[f := mem[f].(size := mem'[f].size)]
  }

  /** The bitmap of the image, and what the kernel then loads. */
  method Mount(img: Image) returns (ok: bool, fs: FileSys?)
    requires img.Ok() && SyncedBut(img.sb, img.Seen(), img.mem, -1)
    modifies img`disk
    ensures ok <==> img.freeblock < BPB
    ensures ok ==>
              fs != null && fresh(fs) && fs.Ok() && fs.sb == img.sb && fs.disk == old(img.Seen()) && fs.mem == img.mem
    ensures ok ==> Exclusive(fs.sb, fs.disk, fs.mem)
  {
    hide Owns, Marked, Bit, Exclusive, DiskInode, SyncedBut, Blank;
    fs := null;
    ok := img.WriteBitmap();
    if ok {
      LoadedIsMem(img.sb, img.disk, img.mem);
      fs := new FileSys(img.disk, img.owner);
    }
  }

  /** The end of main, and a mount. */
  method Finish(img: Image, root: nat) returns (ok: bool, fs: FileSys?)
    requires img.Ready() && root < img.freeinode && root < |img.mem|
    modifies img
    ensures ok <==> DataStart(img.sb) + Need(old(FilesOf(img.Seen(), img.mem))) < BPB
    ensures ok ==> fs != null && fresh(fs) && fs.Ok() && Mounted(fs, old(FilesOf(img.Seen(), img.mem)), root)
    ensures ok ==> Resized(old(img.mem), fs.mem, root)
  {
    SizeIs(img, root);
    hide Owns, Marked, Building, Data, SizesOk, Bit, Exclusive, FilesOf, DiskInode, Need, AllExact, RoundedUp, Settled,
         SyncedBut;
    img.FixSize(root);
    ok, fs := Mount(img);
  }

  /** ... and the bitmap block has a bit to spare, as balloc asserts. */
  ghost predicate FitsBitmap(sb: Superblock, files: seq<seq<byte>>)
  {
    Fits(sb, files) && DataStart(sb) + Need(files) < BPB
  }

  lemma SizeIs(img: Image, f: nat)
    requires img.Ready() && f < |img.mem|
    ensures img.mem[f].size == |FilesOf(img.Seen(), img.mem)[f]|
            && FilesOf(img.Seen(), img.mem)[f] == Data(img.Seen(), img.mem, f)
  {
    hide Blank, Owns, Marked, AllMapped, AllTails, SyncedBut, Data, Need;
  }

  lemma LoadedIsMem(sb: Superblock, disk: seq<Block>, mem: seq<Inode>)
    requires DiskOk(sb, disk) && |mem| == sb.ninodes && SyncedBut(sb, disk, mem, -1)
    ensures Loaded(disk) == mem
  {
    hide DiskInode;
  }
}
