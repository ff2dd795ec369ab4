/** The operations of fs.c on inodes and their blocks, on the block map that the buffer cache
    refines. A panic of the kernel is a result of its own. */
module FileSystem {
  import opened Blocks
  import opened Bitmap
  import opened Ownership
  import opened Inodes
  import opened FileView

  /** Addresses were added to file f and nothing else that a reader can see has changed. */
  ghost predicate Grown(sb: Superblock, disk: seq<Block>, mem: seq<Inode>, disk': seq<Block>, mem': seq<Inode>, f: nat)
    requires f < |mem|
  {
    && SameFiles(disk, mem, disk', mem')
    && SameInodes(sb, disk, disk')
    && OnlyAddrs(mem, mem', f)
    && KeepsRefs(disk, mem, disk', mem')
  }

  ghost predicate SameInodes(sb: Superblock, disk: seq<Block>, disk': seq<Block>)
  {
    |disk'| == |disk| && forall k | 2 <= k < sb.bmapstart && k < |disk| :: disk'[k] == disk[k]
  }

  ghost predicate OnlyAddrs(mem: seq<Inode>, mem': seq<Inode>, f: nat)
    requires f < |mem|
  {
    && |mem'| == |mem|
    && (forall g | 0 <= g < |mem| && g != f :: mem'[g] == mem[g])
    && mem'[f] == mem[f].(addrs := mem'[f].addrs)
  }

  ghost predicate KeepsRefs(disk: seq<Block>, mem: seq<Inode>, disk': seq<Block>, mem': seq<Inode>)
  {
    |mem'| == |mem| &&
    forall g, t | 0 <= g < |mem| && 0 <= t < SLOTS && RefOf(disk, mem, g, t) != 0 ::
      RefOf(disk', mem', g, t) == RefOf(disk, mem, g, t)
  }

  lemma GrownTwice(sb: Superblock, disk: seq<Block>, mem: seq<Inode>, disk1: seq<Block>, mem1: seq<Inode>,
                   disk2: seq<Block>, mem2: seq<Inode>, f: nat)
    requires f < |mem| == |mem1|
    requires Grown(sb, disk, mem, disk1, mem1, f) && Grown(sb, disk1, mem1, disk2, mem2, f)
    ensures Grown(sb, disk, mem, disk2, mem2, f)
  {
    hide Content, RefOf;
    forall g, bn | 0 <= g < |mem| && 0 <= bn < MAXFILE
      ensures Content(disk2, mem2, g, bn) == Content(disk, mem, g, bn)
    {
      assert SameFile(disk, mem, disk1, mem1, g) && SameFile(disk1, mem1, disk2, mem2, g);
      assert Content(disk1, mem1, g, bn) == Content(disk, mem, g, bn);
    }
    forall g, t | 0 <= g < |mem| && 0 <= t < SLOTS && RefOf(disk, mem, g, t) != 0
      ensures RefOf(disk2, mem2, g, t) == RefOf(disk, mem, g, t)
    {
      assert RefOf(disk1, mem1, g, t) == RefOf(disk, mem, g, t);
    }
  }

  /** The two ways bmap stores what balloc gave it. */
  lemma ClaimDirect(sb: Superblock, disk: seq<Block>, mem: seq<Inode>, owner: map<nat, Owner>, f: nat, s: nat, b: nat)
    requires Owns(sb, disk, mem, owner, {}) && f < |mem| && s <= NDIRECT && RefOf(disk, mem, f, s) == 0
    requires b < sb.size && !Bit(sb, disk, b)
    ensures var disk', mem' := Taken(sb, disk, b), mem[f := WithAddr(mem[f], s, b)];
      && b != 0 && Owns(sb, disk', mem', owner[b := Owner(f, s)], {})
      && Grown(sb, disk, mem, disk', mem', f) && RefOf(disk', mem', f, s) == b
  {
    hide Bit, ReadSb, RefOf, DiskWithBit;
    var disk', mem' := Taken(sb, disk, b), mem[f := WithAddr(mem[f], s, b)];
    TakenBits(sb, disk, mem, owner, b, Owner(f, s));
    TakenRefs(sb, disk, mem, owner, b);
    TakenBlocks(sb, disk, b);
    PutDirect(disk', mem, f, s, b);
    ClaimOwns(sb, disk, mem, owner, disk', mem', f, s, b);
    ClaimFiles(sb, disk, mem, owner, disk', mem', f, s, b);
  }

  lemma TakenBlocks(sb: Superblock, disk: seq<Block>, b: nat)
    requires DiskOk(sb, disk) && DataStart(sb) <= b < sb.size
    ensures Taken(sb, disk, b)[b] == ZERO && |Taken(sb, disk, b)| == |disk|
    ensures forall k | 0 <= k < sb.size && k != b && (k < sb.bmapstart || DataStart(sb) <= k) ::
              Taken(sb, disk, b)[k] == disk[k]
  {
    hide ReadSb, BlockWithBit;
    BitBlockIsMeta(sb, b);
  }

  lemma ClaimIndirect(sb: Superblock, disk: seq<Block>, mem: seq<Inode>, owner: map<nat, Owner>, f: nat, s: nat, b: nat)
    requires Owns(sb, disk, mem, owner, {}) && f < |mem| && NDIRECT < s < SLOTS && RefOf(disk, mem, f, s) == 0
    requires mem[f].addrs[NDIRECT] != 0 && b < sb.size && !Bit(sb, disk, b)
    ensures var k := mem[f].addrs[NDIRECT]; DataStart(sb) <= k < sb.size && k != b
    ensures var k := mem[f].addrs[NDIRECT]; var disk1 := Taken(sb, disk, b);
      var disk' := disk1[k := SetWord(disk1[k], s - NDIRECT - 1, b)];
      && b != 0 && Owns(sb, disk', mem, owner[b := Owner(f, s)], {})
      && Grown(sb, disk, mem, disk', mem, f) && RefOf(disk', mem, f, s) == b
  {
    hide Bit, ReadSb, DiskWithBit, SetWord, Word;
    var k := mem[f].addrs[NDIRECT];
    assert RefOf(disk, mem, f, NDIRECT) == k;
    forall g | 0 <= g < |mem| && g != f
      ensures mem[g].addrs[NDIRECT] != k
    {
      assert RefOf(disk, mem, g, NDIRECT) == mem[g].addrs[NDIRECT];
    }
    TakenBits(sb, disk, mem, owner, b, Owner(f, s));
    TakenRefs(sb, disk, mem, owner, b);
    TakenBlocks(sb, disk, b);
    var disk1 := Taken(sb, disk, b);
    var d := SetWord(disk1[k], s - NDIRECT - 1, b);
    PutIndirect(disk1, mem, f, s, b);
    ClaimEntry(sb, disk, mem, owner, disk1, f, s, b, k, d);
  }

  lemma ClaimEntry(sb: Superblock, disk: seq<Block>, mem: seq<Inode>, owner: map<nat, Owner>, disk1: seq<Block>,
                   f: nat, s: nat, b: nat, k: nat, d: Block)
    requires Owns(sb, disk, mem, owner, {}) && f < |mem| && NDIRECT < s < SLOTS && RefOf(disk, mem, f, s) == 0
    requires DataStart(sb) <= b < sb.size && b !in owner && k in owner && owner[k] == Owner(f, NDIRECT)
    requires DiskOk(sb, disk1) && BitsMatch(sb, disk1, owner[b := Owner(f, s)]) && SameRefs(disk, disk1, mem)
    requires disk1[b] == ZERO && SameInodes(sb, disk, disk1)
    requires forall j | DataStart(sb) <= j < sb.size && j != b :: disk1[j] == disk[j]
    requires PutsRef(disk1, mem, disk1[k := d], mem, f, s, b)
    ensures Owns(sb, disk1[k := d], mem, owner[b := Owner(f, s)], {})
    ensures Grown(sb, disk, mem, disk1[k := d], mem, f) && RefOf(disk1[k := d], mem, f, s) == b
  {
    hide Bit, ReadSb, RefOf;
    var disk' := disk1[k := d];
    forall c | 0 <= c < sb.size
      ensures DiskOk(sb, disk') && Bit(sb, disk', c) == Bit(sb, disk1, c)
    {
      BitFrame(sb, disk1, k, d, c);
    }
    assert PutsRef(disk, mem, disk', mem, f, s, b);
    ClaimOwns(sb, disk, mem, owner, disk', mem, f, s, b);
    ClaimFiles(sb, disk, mem, owner, disk', mem, f, s, b);
  }

  lemma GrownRefl(sb: Superblock, disk: seq<Block>, mem: seq<Inode>, f: nat)
    requires f < |mem|
    ensures Grown(sb, disk, mem, disk, mem, f)
  {
    hide Content, RefOf;
  }

  // ---------------------------------------------------------------- pieces of a write

  /** Overwriting part of a block. */
  function Patch(d: Block, at: nat, piece: seq<byte>): (r: Block)
    requires at + |piece| <= BSIZE
    ensures forall k | 0 <= k < BSIZE :: r[k] == if at <= k < at + |piece| then piece[k - at] else d[k]
  {
    d[..at] + piece + d[at + |piece|..]
  }

  ghost predicate OthersSame(disk: seq<Block>, mem: seq<Inode>, disk': seq<Block>, mem': seq<Inode>, f: nat)
  {
    |mem'| == |mem| && forall g | 0 <= g < |mem| && g != f :: SameFile(disk, mem, disk', mem', g)
  }

  /** The bytes of f from off on are those of data, all others as before. */
  ghost predicate Overlaid(disk: seq<Block>, mem: seq<Inode>, disk': seq<Block>, mem': seq<Inode>, f: nat, off: nat,
                           data: seq<byte>)
    requires f < |mem| && f < |mem'|
  {
    forall k | 0 <= k < MAXBYTES ::
      View(disk', mem', f, k) == if off <= k < off + |data| then data[k - off] else View(disk, mem, f, k)
  }

  ghost predicate Mapped(disk: seq<Block>, mem: seq<Inode>, f: nat, off: nat, end: nat)
    requires f < |mem|
  {
    forall bn | 0 <= bn < MAXFILE && off / BSIZE <= bn && bn * BSIZE < end :: RefOf(disk, mem, f, SlotOf(bn)) != 0
  }

  /** data went into f at off. The inode in memory changes only if the write ends past the size:
      otherwise every block it touched was there. */
  ghost predicate Wrote(sb: Superblock, disk: seq<Block>, mem: seq<Inode>, disk': seq<Block>, mem': seq<Inode>,
                        f: nat, off: nat, data: seq<byte>)
    requires f < |mem|
  {
    && SameInodes(sb, disk, disk')
    && OnlyAddrs(mem, mem', f)
    && KeepsRefs(disk, mem, disk', mem')
    && OthersSame(disk, mem, disk', mem', f)
    && Overlaid(disk, mem, disk', mem', f, off, data)
    && (data != [] ==> Mapped(disk', mem', f, off, off + |data|))
    && (NoHoles(disk, mem, f) ==> mem' == mem || off + |data| > mem[f].size)
  }

  lemma OverlaidTwice(disk: seq<Block>, mem: seq<Inode>, disk1: seq<Block>, mem1: seq<Inode>, disk2: seq<Block>,
                      mem2: seq<Inode>, f: nat, off: nat, a: seq<byte>, b: seq<byte>)
    requires f < |mem| && f < |mem1| && f < |mem2|
    requires Overlaid(disk, mem, disk1, mem1, f, off, a) && Overlaid(disk1, mem1, disk2, mem2, f, off + |a|, b)
    ensures Overlaid(disk, mem, disk2, mem2, f, off, a + b)
  {
    hide View;
    forall k | 0 <= k < MAXBYTES
      ensures View(disk2, mem2, f, k) == if off <= k < off + |a + b| then (a + b)[k - off] else View(disk, mem, f, k)
    {
      assert View(disk1, mem1, f, k) == if off <= k < off + |a| then a[k - off] else View(disk, mem, f, k);
    }
  }

  lemma SameTwice(disk: seq<Block>, mem: seq<Inode>, disk1: seq<Block>, mem1: seq<Inode>, disk2: seq<Block>,
                  mem2: seq<Inode>, g: nat)
    requires g < |mem| && g < |mem1| && g < |mem2|
    requires SameFile(disk, mem, disk1, mem1, g) && SameFile(disk1, mem1, disk2, mem2, g)
    ensures SameFile(disk, mem, disk2, mem2, g)
  {
    hide Content;
    forall bn | 0 <= bn < MAXFILE
      ensures Content(disk2, mem2, g, bn) == Content(disk, mem, g, bn)
    {
      assert Content(disk1, mem1, g, bn) == Content(disk, mem, g, bn);
    }
  }

  lemma KeepsTwice(disk: seq<Block>, mem: seq<Inode>, disk1: seq<Block>, mem1: seq<Inode>, disk2: seq<Block>,
                   mem2: seq<Inode>)
    requires KeepsRefs(disk, mem, disk1, mem1) && KeepsRefs(disk1, mem1, disk2, mem2)
    ensures KeepsRefs(disk, mem, disk2, mem2)
  {
    hide RefOf;
    forall g, t | 0 <= g < |mem| && 0 <= t < SLOTS && RefOf(disk, mem, g, t) != 0
      ensures RefOf(disk2, mem2, g, t) == RefOf(disk, mem, g, t)
    {
      assert RefOf(disk1, mem1, g, t) == RefOf(disk, mem, g, t);
    }
  }

  lemma MappedTwice(disk1: seq<Block>, mem1: seq<Inode>, disk2: seq<Block>, mem2: seq<Inode>, f: nat, off: nat,
                    mid: nat, end: nat)
    requires f < |mem1| == |mem2| && off <= mid <= end
    requires KeepsRefs(disk1, mem1, disk2, mem2)
    requires off < mid ==> Mapped(disk1, mem1, f, off, mid)
    requires mid < end ==> Mapped(disk2, mem2, f, mid, end)
    ensures off < end ==> Mapped(disk2, mem2, f, off, end)
  {
    hide RefOf;
    forall bn | off < end && 0 <= bn < MAXFILE && off / BSIZE <= bn && bn * BSIZE < end
      ensures RefOf(disk2, mem2, f, SlotOf(bn)) != 0
    {
      if off < mid && bn * BSIZE < mid {
        assert RefOf(disk1, mem1, f, SlotOf(bn)) != 0;
      }
    }
  }

  /** Two writes, the second where the first stopped, are one write. */
  lemma WroteTwice(sb: Superblock, disk: seq<Block>, mem: seq<Inode>, disk1: seq<Block>, mem1: seq<Inode>,
                   disk2: seq<Block>, mem2: seq<Inode>, f: nat, off: nat, a: seq<byte>, b: seq<byte>)
    requires f < |mem| == |mem1|
    requires Wrote(sb, disk, mem, disk1, mem1, f, off, a) && Wrote(sb, disk1, mem1, disk2, mem2, f, off + |a|, b)
    ensures Wrote(sb, disk, mem, disk2, mem2, f, off, a + b)
  {
    hide RefOf, SameFile, Overlaid, Mapped;
    OverlaidTwice(disk, mem, disk1, mem1, disk2, mem2, f, off, a, b);
    KeepsTwice(disk, mem, disk1, mem1, disk2, mem2);
    MappedTwice(disk1, mem1, disk2, mem2, f, off, off + |a|, off + |a| + |b|);
    forall g | 0 <= g < |mem| && g != f
      ensures SameFile(disk, mem, disk2, mem2, g)
    {
      SameTwice(disk, mem, disk1, mem1, disk2, mem2, g);
    }
  }

  /** One turn of the loop of writei: map the block, then overwrite part of it. */
  lemma WroteOne(sb: Superblock, disk: seq<Block>, mem: seq<Inode>, disk1: seq<Block>, mem1: seq<Inode>,
                 owner1: map<nat, Owner>, f: nat, off: nat, piece: seq<byte>)
    requires f < |mem| == |mem1| && 0 < |piece| && off % BSIZE + |piece| <= BSIZE && off / BSIZE < MAXFILE
    requires Owns(sb, disk1, mem1, owner1, {}) && Grown(sb, disk, mem, disk1, mem1, f)
    requires RefOf(disk1, mem1, f, SlotOf(off / BSIZE)) != 0
    requires RefOf(disk, mem, f, SlotOf(off / BSIZE)) != 0 ==> mem1 == mem
    ensures var addr := RefOf(disk1, mem1, f, SlotOf(off / BSIZE));
      DataStart(sb) <= addr < |disk1| &&
      var disk2 := disk1[addr := Patch(disk1[addr], off % BSIZE, piece)];
      Owns(sb, disk2, mem1, owner1, {}) && Wrote(sb, disk, mem, disk2, mem1, f, off, piece)
  {
    hide Bit, ReadSb, RefOf;
    var bn := off / BSIZE;
    var addr := RefOf(disk1, mem1, f, SlotOf(bn));
    var d := Patch(BlockAt(disk1, addr), off % BSIZE, piece);
    WriteBlock(sb, disk1, mem1, owner1, f, bn, d);
    var disk2 := disk1[addr := d];
    SameRefsKeep(disk1, disk2, mem1);
    KeepsTwice(disk, mem, disk1, mem1, disk2, mem1);
    PatchOverlays(disk, mem, disk1, mem1, disk2, f, off, piece);
    forall g | 0 <= g < |mem| && g != f
      ensures SameFile(disk, mem, disk2, mem1, g)
    {
      assert SameFile(disk1, mem1, disk2, mem1, g) by { hide Content; }
      SameTwice(disk, mem, disk1, mem1, disk2, mem1, g);
    }
  }

  lemma SameRefsKeep(disk: seq<Block>, disk': seq<Block>, mem: seq<Inode>)
    requires SameRefs(disk, disk', mem)
    ensures KeepsRefs(disk, mem, disk', mem)
  {
    hide RefOf;
  }

  lemma PatchOverlays(disk: seq<Block>, mem: seq<Inode>, disk1: seq<Block>, mem1: seq<Inode>, disk2: seq<Block>,
                      f: nat, off: nat, piece: seq<byte>)
    requires f < |mem| == |mem1| && off % BSIZE + |piece| <= BSIZE && off / BSIZE < MAXFILE
    requires SameFile(disk, mem, disk1, mem1, f)
    requires forall c | 0 <= c < MAXFILE ::
      Content(disk2, mem1, f, c) == if c == off / BSIZE then Patch(Content(disk1, mem1, f, c), off % BSIZE, piece)
        else Content(disk1, mem1, f, c)
    ensures Overlaid(disk, mem, disk2, mem1, f, off, piece)
  {
    hide Content, Patch;
    forall k | 0 <= k < MAXBYTES
      ensures View(disk2, mem1, f, k) == if off <= k < off + |piece| then piece[k - off] else View(disk, mem, f, k)
    {
      assert Content(disk1, mem1, f, k / BSIZE) == Content(disk, mem, f, k / BSIZE);
    }
  }

  /** The file after data is written over it at off. */
  function Spliced(was: seq<byte>, off: nat, data: seq<byte>): (r: seq<byte>)
    requires off <= |was|
  {
    was[..off] + data + (if off + |data| < |was| then was[off + |data|..] else [])
  }

  lemma WroteData(disk: seq<Block>, mem: seq<Inode>, disk': seq<Block>, mem': seq<Inode>, f: nat, off: nat,
                  data: seq<byte>)
    requires f < |mem| && f < |mem'| && off <= mem[f].size <= MAXBYTES && off + |data| <= MAXBYTES
    requires Overlaid(disk, mem, disk', mem', f, off, data)
    requires mem'[f].size == if off + |data| > mem[f].size then off + |data| else mem[f].size
    ensures Data(disk', mem', f) == Spliced(Data(disk, mem, f), off, data)
  {
    hide View, Bytes;
    var now, was := Data(disk', mem', f), Data(disk, mem, f);
    var want := Spliced(was, off, data);
    forall k | 0 <= k < |now|
      ensures now[k] == want[k]
    {
      assert now[k] == View(disk', mem', f, k);
    }
  }

  lemma WroteTail(disk: seq<Block>, mem: seq<Inode>, disk': seq<Block>, mem': seq<Inode>, f: nat, off: nat,
                  data: seq<byte>)
    requires f < |mem| && f < |mem'| && Overlaid(disk, mem, disk', mem', f, off, data) && TailZero(disk, mem, f)
    requires mem[f].size <= mem'[f].size && off + |data| <= mem'[f].size
    ensures TailZero(disk', mem', f)
  {
    hide View;
  }

  lemma WroteNoHoles(disk: seq<Block>, mem: seq<Inode>, disk': seq<Block>, mem': seq<Inode>, f: nat, off: nat, end: nat)
    requires f < |mem| == |mem'| && off <= mem[f].size && NoHoles(disk, mem, f) && KeepsRefs(disk, mem, disk', mem')
    requires mem'[f].size == mem[f].size || (mem'[f].size == end && Mapped(disk', mem', f, off, end))
    ensures NoHoles(disk', mem', f)
  {
    hide RefOf;
    forall bn | 0 <= bn < MAXFILE && bn * BSIZE < mem'[f].size
      ensures RefOf(disk', mem', f, SlotOf(bn)) != 0
    {
      if bn * BSIZE < mem[f].size {
        assert RefOf(disk, mem, f, SlotOf(bn)) != 0;
      }
    }
  }

  /** What a finished writei promises. */
  ghost predicate WriteResult(sb: Superblock, disk: seq<Block>, mem: seq<Inode>, disk': seq<Block>, mem': seq<Inode>,
                              f: nat, off: nat, src: seq<byte>)
    requires DiskOk(sb, disk) && DiskOk(sb, disk') && f < |mem| == |mem'| == sb.ninodes && SizesOk(mem)
             && off <= mem[f].size
  {
    && SizesOk(mem')
    && (forall g | 0 <= g < |mem| && g != f :: mem'[g] == mem[g])
    && mem'[f] == mem[f].(addrs := mem'[f].addrs, size := mem'[f].size)
    && KeepsRefs(disk, mem, disk', mem')
    && OthersSame(disk, mem, disk', mem', f)
    && Data(disk', mem', f) == Spliced(Data(disk, mem, f), off, src)
    && (NoHoles(disk, mem, f) ==> NoHoles(disk', mem', f))
    && (TailZero(disk, mem, f) ==> TailZero(disk', mem', f))
    && (NoHoles(disk, mem, f) && SyncedBut(sb, disk, mem, -1) ==> SyncedBut(sb, disk', mem', -1))
  }

  datatype Written = WritePanic | WriteFail | WriteDone
  datatype Read = ReadPanic | ReadFail | ReadDone(bytes: seq<byte>)

  /** off + n in 32-bit unsigned arithmetic. */
  function Add32(off: word, n: word): word
  {
    (off + n) % TWO32
  }

  function Min(a: nat, b: nat): nat
  {
    if a < b then a else b
  }

  function Loaded(disk: seq<Block>): (r: seq<Inode>)
    requires |disk| > 1 && DiskOk(ReadSb(disk[1]), disk)
    ensures |r| == ReadSb(disk[1]).ninodes && forall f | 0 <= f < |r| :: r[f] == DiskInode(ReadSb(disk[1]), disk, f)
  {
    var sb := ReadSb(disk[1]);
    seq(sb.ninodes, f requires 0 <= f < sb.ninodes => DiskInode(sb, disk, f))
  }

  class FileSys {
    const sb: Superblock
    var disk: seq<Block>
    var mem: seq<Inode>              // the in-memory copy of each inode
    ghost var owner: map<nat, Owner>

    /** iinit, with every inode loaded as ilock loads it. */
    constructor (image: seq<Block>, ghost owners: map<nat, Owner>)
      requires |image| > 1 && DiskOk(ReadSb(image[1]), image)
      requires Owns(ReadSb(image[1]), image, Loaded(image), owners, {})
      ensures Ok() && sb == ReadSb(image[1]) && disk == image && mem == Loaded(image) && owner == owners
    {
      sb := ReadSb(image[1]);
      disk := image;
      mem := Loaded(image);
      owner := owners;
    }

    /** Block ownership, with memory's copy of the inodes. */
    ghost predicate Ok()
      reads this
    {
      Owns(sb, disk, mem, owner, {}) && |mem| == sb.ninodes
    }

    ghost predicate Full()
      requires DiskOk(sb, disk)
      reads this
    {
      AllUsed(sb, disk, sb.size)
    }

    /** The inner loop of balloc: the lowest clear bit of one bitmap block, BPB if none. */
    method FindClear(b: nat) returns (bi: nat)
      requires DiskOk(sb, disk) && b % BPB == 0 && b < sb.size && AllUsed(sb, disk, b)
      ensures b + bi <= sb.size && bi <= BPB && AllUsed(sb, disk, b + bi)
      ensures bi < BPB && b + bi < sb.size ==> !Bit(sb, disk, b + bi)
    {
      hide Bit, TestBit, ReadSb;
      bi := 0;
      while bi < BPB && b + bi < sb.size
        invariant bi <= BPB && b + bi <= sb.size
        invariant AllUsed(sb, disk, b + bi)
      {
        ScanBit(sb, disk, b, bi);
        if !TestBit(disk[BitBlock(sb, b)][bi / 8], bi % 8) {
          return;
        }
        bi := bi + 1;
      }
    }

    /** balloc: the lowest free block, marked and zeroed; failure (the panic) exactly when the
        bitmap is full. */
    method Balloc() returns (ok: bool, addr: nat)
      requires DiskOk(sb, disk)
      modifies this`disk
      ensures !ok ==> AllUsed(sb, old(disk), sb.size) && disk == old(disk)
      ensures ok ==> addr < sb.size && !Bit(sb, old(disk), addr) && AllUsed(sb, old(disk), addr)
      ensures ok ==> disk == Taken(sb, old(disk), addr)
    {
      hide Bit, TestBit, PutBit, ReadSb;
      var b := 0;
      while b < sb.size
        invariant 0 <= b && b % BPB == 0 && disk == old(disk)
        invariant AllUsed(sb, disk, if b < sb.size then b else sb.size)
        decreases sb.size + BPB - b
      {
        var bi := FindClear(b);
        if bi < BPB && b + bi < sb.size {
          ScanBit(sb, disk, b, bi);
          var bp := BitBlock(sb, b);
          disk := disk[bp := BlockWithBit(disk[bp], bi, true)];
          disk := disk[b + bi := ZERO];
          return true, b + bi;
        }
        b := b + BPB;
      }
      ok, addr := false, 0;
    }

    /** bfree: clears the bit of b; failure (the panic) exactly when it is clear already. */
    method Bfree(b: nat) returns (ok: bool)
      requires DiskOk(sb, disk) && b < sb.size
      modifies this`disk
      ensures ok <==> Bit(sb, old(disk), b)
      ensures disk == if ok then DiskWithBit(sb, old(disk), b, false) else old(disk)
    {
      var cur := ReadSb(disk[1]);
      BitBlockIsMeta(sb, b);
      var k := BitBlock(cur, b);
      var bi := b % BPB;
      ok := TestBit(disk[k][bi / 8], bi % 8);
      if ok {
        disk := disk[k := BlockWithBit(disk[k], bi, false)];
      }
    }

    /** `ip->addrs[s] = balloc(ip->dev)` in bmap. */
    method AllocDirect(f: nat, s: nat) returns (ok: bool, addr: nat)
      requires Ok() && f < |mem| && s <= NDIRECT && mem[f].addrs[s] == 0
      modifies this
      ensures Ok()
      ensures !ok ==> Full() && disk == old(disk) && mem == old(mem)
      ensures ok ==> addr != 0 && |mem| == old(|mem|) && RefOf(disk, mem, f, s) == addr
      ensures ok ==> Grown(sb, old(disk), old(mem), disk, mem, f)
    {
      hide Bit, ReadSb, Taken, Grown;
      ok, addr := Balloc();
      if ok {
        ClaimDirect(sb, old(disk), mem, owner, f, s, addr);
        mem := mem[f := WithAddr(mem[f], s, addr)];
        owner := owner[addr := Owner(f, s)];
      }
    }

    /** `a[bn] = balloc(ip->dev); log_write(bp)` in bmap. */
    method AllocEntry(f: nat, j: nat) returns (ok: bool, addr: nat)
      requires Ok() && f < |mem| && j < WORDS && mem[f].addrs[NDIRECT] != 0 && RefOf(disk, mem, f, NDIRECT + 1 + j) == 0
      modifies this
      ensures Ok() && mem == old(mem)
      ensures !ok ==> Full() && disk == old(disk)
      ensures ok ==> addr != 0 && RefOf(disk, mem, f, NDIRECT + 1 + j) == addr
      ensures ok ==> Grown(sb, old(disk), old(mem), disk, mem, f)
    {
      hide Bit, ReadSb, DiskWithBit, Grown, RefOf;
      ok, addr := Balloc();
      if ok {
        ClaimIndirect(sb, old(disk), mem, owner, f, NDIRECT + 1 + j, addr);
        var bp := mem[f].addrs[NDIRECT];
        disk := disk[bp := SetWord(disk[bp], j, addr)];
        owner := owner[addr := Owner(f, NDIRECT + 1 + j)];
      }
    }

    /** bmap: the address of block bn of file f, allocated if there is none. A block that is
        mapped is found without any change; one that is not is mapped to a block of zeros, which
        no reader can tell from a hole. It fails (panics) beyond MAXFILE or on a full disk. */
    method Bmap(f: nat, bn: nat) returns (ok: bool, addr: nat)
      requires Ok() && f < |mem|
      modifies this
      ensures Ok() && |mem| == old(|mem|) && Grown(sb, old(disk), old(mem), disk, mem, f)
      ensures ok ==> bn < MAXFILE && addr == RefOf(disk, mem, f, SlotOf(bn)) != 0
      ensures !ok ==> bn >= MAXFILE || Full()
      ensures bn >= MAXFILE ==> disk == old(disk) && mem == old(mem)
      ensures bn < MAXFILE && old(RefOf(disk, mem, f, SlotOf(bn))) != 0 ==> ok && disk == old(disk) && mem == old(mem)
    {
      hide Bit, ReadSb, Taken, Grown, Word;
      GrownRefl(sb, disk, mem, f);
      if bn < NDIRECT {
        ok, addr := true, mem[f].addrs[bn];
        if addr == 0 {
          ok, addr := AllocDirect(f, bn);
        }
        return;
      }
      var j := bn - NDIRECT;
      if j < WORDS {
        if mem[f].addrs[NDIRECT] == 0 {
          ok, addr := AllocDirect(f, NDIRECT);
          if !ok { return; }
        }
        ghost var disk1, mem1 := disk, mem;
        PointerInRange(sb, disk, mem, owner, f);
        var bp := mem[f].addrs[NDIRECT];
        ok, addr := true, Word(disk[bp], j);
        if addr == 0 {
          ok, addr := AllocEntry(f, j);
          if ok {
            GrownTwice(sb, old(disk), old(mem), disk1, mem1, disk, mem, f);
          }
        }
        return;
      }
      ok, addr := false, 0;
    }

    method WriteStep(f: nat, off: nat, piece: seq<byte>) returns (ok: bool)
      requires Ok() && f < |mem| && 0 < |piece| && off % BSIZE + |piece| <= BSIZE && off / BSIZE < MAXFILE
      modifies this
      ensures Ok() && |mem| == old(|mem|)
      ensures !ok ==> Full() && OthersSame(old(disk), old(mem), disk, mem, f) && OnlyAddrs(old(mem), mem, f)
      ensures old(RefOf(disk, mem, f, SlotOf(off / BSIZE))) != 0 ==> ok
      ensures ok ==> Wrote(sb, old(disk), old(mem), disk, mem, f, off, piece)
    {
      hide Bit, ReadSb, RefOf, Patch, Wrote;
      var addr;
      ok, addr := Bmap(f, off / BSIZE);
      if ok {
        WroteOne(sb, old(disk), old(mem), disk, mem, owner, f, off, piece);
        disk := disk[addr := Patch(disk[addr], off % BSIZE, piece)];
      }
    }

    /** iupdate: the in-memory inode goes to its place on disk, and nothing else moves. */
    method Iupdate(f: nat)
      requires Ok() && f < |mem|
      modifies this`disk
      ensures Ok() && disk == Stored(sb, old(disk), f, mem[f])
      ensures SameFiles(old(disk), mem, disk, mem) && SameRefs(old(disk), disk, mem)
      ensures forall g | 0 <= g < |mem| ::
                DiskInode(sb, disk, g) == if g == f then mem[f] else DiskInode(sb, old(disk), g)
    {
      hide Bit, ReadSb, RefOf, PutWords, DinodeWords;
      IBlockIsMeta(sb, f);
      var k := IBlock(sb, f);
      var d := PutWords(disk[k], DWORDS * (f % IPB), Pack(mem[f]));
      WriteInodeBlock(sb, disk, mem, owner, k, d);
      disk := disk[k := d];
      forall g | 0 <= g < |mem|
        ensures DiskInode(sb, disk, g) == if g == f then mem[f] else DiskInode(sb, old(disk), g)
      {
        StoredReadsBack(sb, old(disk), f, mem[f], g);
      }
    }

    /** The loop of writei. */
    method WriteAll(f: nat, start: nat, src: seq<byte>) returns (ok: bool)
      requires Ok() && f < |mem| && start + |src| <= MAXBYTES
      modifies this
      ensures Ok() && |mem| == old(|mem|)
      ensures !ok ==> Full() && OthersSame(old(disk), old(mem), disk, mem, f) && OnlyAddrs(old(mem), mem, f)
      ensures old(Mapped(disk, mem, f, start, start + |src|)) ==> ok
      ensures ok ==> Wrote(sb, old(disk), old(mem), disk, mem, f, start, src)
    {
      hide Bit, ReadSb, RefOf, Owns, SameFile;
      var tot, off, n := 0, start, |src|;
      WroteEmpty(sb, disk, mem, f, start);
      assert src[..0] == [];
      while tot < n
        invariant 0 <= tot <= n && off == start + tot
        invariant Ok() && |mem| == old(|mem|)
        invariant Wrote(sb, old(disk), old(mem), disk, mem, f, start, src[..tot])
      {
        StillMapped(old(disk), old(mem), disk, mem, f, start, start + n, off);
        hide Wrote;
        ghost var disk1, mem1 := disk, mem;
        var m := Min(n - tot, BSIZE - off % BSIZE);
        ok := WriteStep(f, off, src[tot..tot + m]);
        if !ok {
          PartWay(sb, old(disk), old(mem), disk1, mem1, disk, mem, f, start, src[..tot]);
          return;
        }
        WroteTwice(sb, old(disk), old(mem), disk1, mem1, disk, mem, f, start, src[..tot], src[tot..tot + m]);
        assert src[..tot] + src[tot..tot + m] == src[..tot + m];
        tot, off := tot + m, off + m;
      }
      assert src[..n] == src;
      ok := true;
    }

    /** writei on a file or directory. It fails exactly on a start past the end, on a 32-bit
        overflow of off + n and on a file that would be too long, and then does nothing. Done, the
        bytes of f are the old ones with src laid over them at off, every other file is as it was,
        no hole appears, and the inode on disk is the inode in memory. A panic means a full disk. */
    method Writei(f: nat, off: word, src: seq<byte>) returns (r: Written)
      requires Ok() && f < |mem| && SizesOk(mem) && |src| < TWO32
      modifies this
      ensures Ok() && |mem| == old(|mem|)
      ensures r.WriteFail? <==> off > old(mem[f].size) || off + |src| >= TWO32 || off + |src| > MAXBYTES
      ensures r.WriteFail? ==> disk == old(disk) && mem == old(mem)
      ensures r.WritePanic? ==> Full() && !(old(NoHoles(disk, mem, f)) && off + |src| <= old(mem[f].size))
      ensures OthersSame(old(disk), old(mem), disk, mem, f)
      ensures r.WriteDone? ==> WriteResult(sb, old(disk), old(mem), disk, mem, f, off, src)
    {
      hide Bit, ReadSb, RefOf, SameFile, Data, Overlaid, Mapped, Stored, DiskInode, WriteResult, Content;
      WroteEmpty(sb, disk, mem, f, off);
      if off > mem[f].size || Add32(off, |src|) < off {
        return WriteFail;
      }
      if Add32(off, |src|) > MAXBYTES {
        return WriteFail;
      }
      var n := |src|;
      assert NoHoles(disk, mem, f) && off + n <= mem[f].size ==> Mapped(disk, mem, f, off, off + n) by {
        InsideIsMapped(disk, mem, f, off, off + n);
      }
      var ok := WriteAll(f, off, src);
      if !ok {
        return WritePanic;
      }
      r := WriteDone;
      if n > 0 && off + n > mem[f].size {
        ghost var disk1, mem1 := disk, mem;
        Restated(sb, disk, mem, owner, f, mem[f].(size := off + n));
        mem := mem[f := mem[f].(size := off + n)];
        Iupdate(f);
        GrewResult(sb, old(disk), old(mem), disk1, mem1, disk, mem, f, off, src);
      } else {
        InPlaceResult(sb, old(disk), old(mem), disk, mem, f, off, src);
      }
    }

    /** readi on a file or directory: the bytes of f from off, clipped at the size. Where no block
        inside the size is missing it changes nothing at all and cannot panic. */
    method Readi(f: nat, off: word, n: word) returns (r: Read)
      requires Ok() && f < |mem| && SizesOk(mem)
      modifies this
      ensures Ok() && |mem| == old(|mem|) && Grown(sb, old(disk), old(mem), disk, mem, f)
      ensures r.ReadFail? <==> off > old(mem[f].size) || off + n >= TWO32
      ensures r.ReadDone? ==> r.bytes == old(Data(disk, mem, f))[off..Min(off + n, old(mem[f].size))]
      ensures r.ReadPanic? ==> Full()
      ensures r.ReadFail? || old(NoHoles(disk, mem, f)) ==> !r.ReadPanic? && disk == old(disk) && mem == old(mem)
    {
      hide Bit, ReadSb, RefOf, Grown, Data, Owns;
      GrownRefl(sb, disk, mem, f);
      if off > mem[f].size || Add32(off, n) < off {
        return ReadFail;
      }
      var end := off + (if Add32(off, n) > mem[f].size then mem[f].size - off else n);
      var ok, dst := ReadAll(f, off, end);
      r := if ok then ReadDone(dst) else ReadPanic;
    }

    /** The loop of readi. */
    method ReadAll(f: nat, start: nat, end: nat) returns (ok: bool, dst: seq<byte>)
      requires Ok() && f < |mem| && start <= end <= mem[f].size <= MAXBYTES
      modifies this
      ensures Ok() && |mem| == old(|mem|) && Grown(sb, old(disk), old(mem), disk, mem, f)
      ensures ok ==> dst == old(Data(disk, mem, f))[start..end]
      ensures !ok ==> Full()
      ensures old(NoHoles(disk, mem, f)) ==> ok && disk == old(disk) && mem == old(mem)
    {
      hide Bit, ReadSb, RefOf, Grown, Data, Owns;
      var off := start;
      ghost var bytes := Data(disk, mem, f);
      ok, dst := true, [];
      GrownRefl(sb, disk, mem, f);
      while off < end
        invariant start <= off <= end && ok
        invariant Ok() && |mem| == old(|mem|) && Grown(sb, old(disk), old(mem), disk, mem, f)
        invariant dst == bytes[start..off]
        invariant old(NoHoles(disk, mem, f)) ==> disk == old(disk) && mem == old(mem)
      {
        ghost var disk1, mem1 := disk, mem;
        var addr;
        ok, addr := Bmap(f, off / BSIZE);
        GrownTwice(sb, old(disk), old(mem), disk1, mem1, disk, mem, f);
        if !ok { return; }
        var m := Min(end - off, BSIZE - off % BSIZE);
        ReadPiece(sb, old(disk), old(mem), disk, mem, owner, f, off, m);
        assert bytes[start..off] + bytes[off..off + m] == bytes[start..off + m];
        dst := dst + disk[addr][off % BSIZE..off % BSIZE + m];
        off := off + m;
      }
    }

    /** itrunc: the file is empty and maps nothing, exactly the bits of the blocks it held are
        cleared, no free block is freed again, and no other file changes. */
    method Itrunc(f: nat)
      requires Ok() && f < |mem|
      modifies this
      ensures Ok() && |mem| == old(|mem|)
      ensures mem == old(mem)[f := old(mem[f]).(size := 0, addrs := ZeroUpTo(old(mem[f].addrs), NDIRECT + 1))]
      ensures OthersSame(old(disk), old(mem), disk, mem, f) && OthersRefs(old(disk), old(mem), disk, mem, f)
      ensures BitsOfGone(sb, old(disk), old(mem), disk, f)
      ensures old(SyncedBut(sb, disk, mem, f)) ==> SyncedBut(sb, disk, mem, -1)
    {
      hide Bit, ReadSb, DiskInode, Stored, RefOf, Truncating, Owns;
      NotTruncating(sb, disk, mem, owner, f);
      var i := 0;
      while i < NDIRECT
        invariant 0 <= i <= NDIRECT && Ok()
        invariant mem == old(mem)[f := old(mem[f]).(addrs := ZeroUpTo(old(mem[f].addrs), i))]
        invariant Truncating(sb, old(disk), old(mem), old(owner), disk, mem, owner, f)
      {
        ghost var disk1, mem1, owner1 := disk, mem, owner;
        FreeDirect(f, i);
        TruncatingTwice(sb, old(disk), old(mem), old(owner), disk1, mem1, owner1, disk, mem, owner, f);
        i := i + 1;
      }
      ghost var zeros := ZeroUpTo(old(mem[f].addrs), NDIRECT + 1);
      if mem[f].addrs[NDIRECT] != 0 {
        ghost var disk1, mem1, owner1 := disk, mem, owner;
        FreeIndirect(f);
        TruncatingTwice(sb, old(disk), old(mem), old(owner), disk1, mem1, owner1, disk, mem, owner, f);
      } else {
        assert mem[f].addrs == zeros;
      }
      Clear(f, old(disk), old(mem), old(owner));
    }

    /** The end of itrunc: size zero, inode written. */
    method Clear(f: nat, ghost disk0: seq<Block>, ghost mem0: seq<Inode>, ghost owner0: map<nat, Owner>)
      requires Ok() && f < |mem| == |mem0| && forall k | 0 <= k <= NDIRECT :: mem[f].addrs[k] == 0
      requires Owns(sb, disk0, mem0, owner0, {}) && Truncating(sb, disk0, mem0, owner0, disk, mem, owner, f)
      modifies this
      ensures Ok() && mem == old(mem)[f := old(mem[f]).(size := 0)]
      ensures OthersSame(disk0, mem0, disk, mem, f) && OthersRefs(disk0, mem0, disk, mem, f)
      ensures BitsOfGone(sb, disk0, mem0, disk, f)
      ensures SyncedBut(sb, disk0, mem0, f) ==> SyncedBut(sb, disk, mem, -1)
    {
      hide Bit, ReadSb, DiskInode, Stored, RefOf, SameFile, OthersRefs;
      Restated(sb, disk, mem, owner, f, mem[f].(size := 0));
      mem := mem[f := mem[f].(size := 0)];
      ghost var disk1 := disk;
      Iupdate(f);
      TruncatedBits(sb, disk0, mem0, owner0, disk, mem, owner, f);
      SameRefsOthers(disk1, old(mem), mem, disk, f);
      OthersRefsTwice(disk0, mem0, disk1, old(mem), disk, mem, f);
      forall g | 0 <= g < |mem| && g != f
        ensures SameFile(disk0, mem0, disk, mem, g)
      {
        SameTwice(disk0, mem0, disk1, old(mem), disk1, mem, g);
        SameTwice(disk0, mem0, disk1, mem, disk, mem, g);
      }
      if SyncedBut(sb, disk0, mem0, f) {
        SyncFrame(sb, disk0, disk1, mem0, f);
      }
    }

    /** One direct slot of itrunc. The assertion is the silence of "freeing free block". */
    method FreeDirect(f: nat, s: nat)
      requires Ok() && f < |mem| && s < NDIRECT
      modifies this
      ensures Ok() && Truncating(sb, old(disk), old(mem), old(owner), disk, mem, owner, f)
      ensures mem == old(mem)[f := WithAddr(old(mem[f]), s, 0)]
    {
      hide Bit, ReadSb, DiskWithBit, Truncating;
      NotTruncating(sb, disk, mem, owner, f);
      assert mem[f].addrs[s] == 0 ==> mem[f].addrs[s := 0] == mem[f].addrs;
      var b := mem[f].addrs[s];
      if b != 0 {
        assert RefOf(disk, mem, f, s) == b;
        ReleaseDirect(sb, disk, mem, owner, f, s, b);
        UnmarkFiles(sb, disk, mem, owner, {}, b, mem[f := WithAddr(mem[f], s, 0)], f);
        var ok := Bfree(b);
        assert ok;
        mem := mem[f := WithAddr(mem[f], s, 0)];
        owner := owner - {b};
      }
    }

    /** One entry of the indirect block. */
    method FreeEntry(f: nat, j: nat)
      requires Owns(sb, disk, mem, owner, Entries(f, j)) && f < |mem| && j < WORDS && mem[f].addrs[NDIRECT] != 0
      modifies this`disk, this`owner
      ensures Owns(sb, disk, mem, owner, Entries(f, j + 1))
      ensures Truncating(sb, old(disk), mem, old(owner), disk, mem, owner, f)
    {
      hide Bit, ReadSb, DiskWithBit, Truncating, RefOf;
      NotTruncating(sb, disk, mem, owner, f);
      var s := NDIRECT + 1 + j;
      assert Entries(f, j) + {Owner(f, s)} == Entries(f, j + 1);
      IndirectEntry(sb, disk, mem, owner, Entries(f, j), f, j);
      var b := Word(disk[mem[f].addrs[NDIRECT]], j);
      if b != 0 {
        ReleaseEntry(sb, disk, mem, owner, Entries(f, j), f, s, b);
        UnmarkFiles(sb, disk, mem, owner, Entries(f, j), b, mem, f);
        var ok := Bfree(b);
        assert ok;
        owner := owner - {b};
      } else {
        SkipEntry(sb, disk, mem, owner, Entries(f, j), f, s);
      }
    }

    /** The second half of itrunc: the entries, then the indirect block. */
    method FreeIndirect(f: nat)
      requires Ok() && f < |mem| && mem[f].addrs[NDIRECT] != 0
      modifies this
      ensures Ok() && Truncating(sb, old(disk), old(mem), old(owner), disk, mem, owner, f)
      ensures mem == old(mem)[f := WithAddr(old(mem[f]), NDIRECT, 0)]
    {
      hide Bit, ReadSb, DiskWithBit, Truncating, RefOf, Owns;
      NotTruncating(sb, disk, mem, owner, f);
      var j := 0;
      assert Entries(f, 0) == {};
      while j < WORDS
        invariant 0 <= j <= WORDS && mem == old(mem)
        invariant Owns(sb, disk, mem, owner, Entries(f, j))
        invariant Truncating(sb, old(disk), old(mem), old(owner), disk, mem, owner, f)
      {
        ghost var disk1, owner1 := disk, owner;
        FreeEntry(f, j);
        TruncatingTwice(sb, old(disk), mem, old(owner), disk1, mem, owner1, disk, mem, owner, f);
        j := j + 1;
      }
      ghost var disk1, mem1, owner1 := disk, mem, owner;
      FreePointer(f);
      TruncatingTwice(sb, old(disk), old(mem), old(owner), disk1, mem1, owner1, disk, mem, owner, f);
    }

    method FreePointer(f: nat)
      requires Owns(sb, disk, mem, owner, Entries(f, WORDS)) && f < |mem| == sb.ninodes && mem[f].addrs[NDIRECT] != 0
      modifies this
      ensures Ok() && Truncating(sb, old(disk), old(mem), old(owner), disk, mem, owner, f)
      ensures mem == old(mem)[f := WithAddr(old(mem[f]), NDIRECT, 0)]
    {
      hide Bit, ReadSb, DiskWithBit, Truncating;
      var b := mem[f].addrs[NDIRECT];
      assert RefOf(disk, mem, f, NDIRECT) == b;
      ReleasePointer(sb, disk, mem, owner, Entries(f, WORDS), f, b);
      UnmarkFiles(sb, disk, mem, owner, Entries(f, WORDS), b, mem[f := WithAddr(mem[f], NDIRECT, 0)], f);
      var ok := Bfree(b);
      assert ok;
      mem := mem[f := WithAddr(mem[f], NDIRECT, 0)];
      owner := owner - {b};
    }
  }

  // ---------------------------------------------------------------- truncation

  function ZeroUpTo(a: Addrs, n: nat): (r: Addrs)
    requires n <= NDIRECT + 1
    ensures forall k | 0 <= k <= NDIRECT :: r[k] == if k < n then 0 else a[k]
  {
    if n == 0 then a else ZeroUpTo(a, n - 1)[n - 1 := 0]
  }

  /** After itrunc: the freed bits are exactly those of the blocks f held. */
  ghost predicate BitsOfGone(sb: Superblock, disk: seq<Block>, mem: seq<Inode>, disk': seq<Block>, f: nat)
    requires DiskOk(sb, disk) && DiskOk(sb, disk') && f < |mem|
  {
    forall b | 0 <= b < sb.size :: Bit(sb, disk', b) <==> Bit(sb, disk, b) && !(b != 0 && HeldBy(disk, mem, f, b))
  }

  ghost predicate HeldBy(disk: seq<Block>, mem: seq<Inode>, f: nat, b: nat)
    requires f < |mem|
  {
    exists s :: 0 <= s < SLOTS && RefOf(disk, mem, f, s) == b
  }

  lemma TruncatedBits(sb: Superblock, disk: seq<Block>, mem: seq<Inode>, owner: map<nat, Owner>,
                      disk': seq<Block>, mem': seq<Inode>, owner': map<nat, Owner>, f: nat)
    requires Owns(sb, disk, mem, owner, {}) && Owns(sb, disk', mem', owner', {}) && f < |mem| == |mem'|
    requires FreedOnly(owner, owner', f)
    requires forall k | 0 <= k <= NDIRECT :: mem'[f].addrs[k] == 0
    ensures BitsOfGone(sb, disk, mem, disk', f)
  {
    hide Bit, ReadSb;
    forall b | 0 <= b < sb.size
      ensures Bit(sb, disk', b) <==> Bit(sb, disk, b) && !(b != 0 && HeldBy(disk, mem, f, b))
    {
      if b in owner && owner[b].file == f {
        assert RefOf(disk, mem, f, owner[b].slot) == b;
      }
      if b != 0 && HeldBy(disk, mem, f, b) {
        var s :| 0 <= s < SLOTS && RefOf(disk, mem, f, s) == b;
      }
    }
  }

  ghost function Entries(f: nat, n: nat): set<Owner>
  {
    set t | NDIRECT < t <= NDIRECT + n :: Owner(f, t)
  }

  lemma IndirectEntry(sb: Superblock, disk: seq<Block>, mem: seq<Inode>, owner: map<nat, Owner>, gone: set<Owner>,
                      f: nat, j: nat)
    requires Owns(sb, disk, mem, owner, gone) && f < |mem| && j < WORDS && mem[f].addrs[NDIRECT] != 0
    requires forall o | o in gone :: o.slot > NDIRECT
    ensures mem[f].addrs[NDIRECT] < |disk|
    ensures RefOf(disk, mem, f, NDIRECT + 1 + j) == Word(disk[mem[f].addrs[NDIRECT]], j)
  {
    hide Bit, ReadSb, Word;
    assert RefOf(disk, mem, f, NDIRECT) == mem[f].addrs[NDIRECT];
  }

  /** Only owners of f lost their blocks. */
  ghost predicate FreedOnly(owner: map<nat, Owner>, owner': map<nat, Owner>, f: nat)
  {
    && (forall b | b in owner' :: b in owner && owner'[b] == owner[b])
    && (forall b | b in owner && owner[b].file != f :: b in owner')
  }

  ghost predicate OthersRefs(disk: seq<Block>, mem: seq<Inode>, disk': seq<Block>, mem': seq<Inode>, f: nat)
  {
    |mem'| == |mem| &&
    forall g, t | 0 <= g < |mem| && g != f && 0 <= t < SLOTS :: RefOf(disk', mem', g, t) == RefOf(disk, mem, g, t)
  }

  lemma OthersRefsTwice(disk: seq<Block>, mem: seq<Inode>, disk1: seq<Block>, mem1: seq<Inode>, disk2: seq<Block>,
                        mem2: seq<Inode>, f: nat)
    requires OthersRefs(disk, mem, disk1, mem1, f) && OthersRefs(disk1, mem1, disk2, mem2, f)
    ensures OthersRefs(disk, mem, disk2, mem2, f)
  {
    hide RefOf;
    forall g, t | 0 <= g < |mem| && g != f && 0 <= t < SLOTS
      ensures RefOf(disk2, mem2, g, t) == RefOf(disk, mem, g, t)
    {
      assert RefOf(disk1, mem1, g, t) == RefOf(disk, mem, g, t);
    }
  }

  lemma SameRefsOthers(disk: seq<Block>, mem: seq<Inode>, mem': seq<Inode>, disk': seq<Block>, f: nat)
    requires SameRefs(disk, disk', mem') && |mem'| == |mem| && forall g | 0 <= g < |mem| && g != f :: mem'[g] == mem[g]
    ensures OthersRefs(disk, mem, disk', mem', f)
  {
    hide Ref;
    forall g, t | 0 <= g < |mem| && g != f && 0 <= t < SLOTS
      ensures RefOf(disk', mem', g, t) == RefOf(disk, mem, g, t)
    {
      assert RefOf(disk', mem', g, t) == RefOf(disk, mem', g, t);
    }
  }

  /** Blocks and addresses of f went away; other files hold what they held. */
  ghost predicate Truncating(sb: Superblock, disk: seq<Block>, mem: seq<Inode>, owner: map<nat, Owner>,
                             disk': seq<Block>, mem': seq<Inode>, owner': map<nat, Owner>, f: nat)
    requires f < |mem|
  {
    && SameInodes(sb, disk, disk')
    && OthersSame(disk, mem, disk', mem', f)
    && OnlyAddrs(mem, mem', f)
    && OthersRefs(disk, mem, disk', mem', f)
    && FreedOnly(owner, owner', f)
  }

  lemma NotTruncating(sb: Superblock, disk: seq<Block>, mem: seq<Inode>, owner: map<nat, Owner>, f: nat)
    requires f < |mem|
    ensures Truncating(sb, disk, mem, owner, disk, mem, owner, f)
  {
    hide Content, RefOf;
  }

  lemma TruncatingTwice(sb: Superblock, disk: seq<Block>, mem: seq<Inode>, owner: map<nat, Owner>,
                        disk1: seq<Block>, mem1: seq<Inode>, owner1: map<nat, Owner>,
                        disk2: seq<Block>, mem2: seq<Inode>, owner2: map<nat, Owner>, f: nat)
    requires f < |mem| == |mem1|
    requires Truncating(sb, disk, mem, owner, disk1, mem1, owner1, f)
             && Truncating(sb, disk1, mem1, owner1, disk2, mem2, owner2, f)
    ensures Truncating(sb, disk, mem, owner, disk2, mem2, owner2, f)
  {
    hide SameFile, OthersRefs;
    OthersRefsTwice(disk, mem, disk1, mem1, disk2, mem2, f);
    forall g | 0 <= g < |mem| && g != f
      ensures SameFile(disk, mem, disk2, mem2, g)
    {
      SameTwice(disk, mem, disk1, mem1, disk2, mem2, g);
    }
  }

  lemma UnmarkFiles(sb: Superblock, disk: seq<Block>, mem: seq<Inode>, owner: map<nat, Owner>, gone: set<Owner>, b: nat,
                    mem': seq<Inode>, f: nat)
    requires Owns(sb, disk, mem, owner, gone) && b in owner && owner[b].file == f
    requires forall o | o in gone :: o.slot > NDIRECT && o.file == f
    requires f < |mem| && OnlyAddrs(mem, mem', f)
    ensures Truncating(sb, disk, mem, owner, DiskWithBit(sb, disk, b, false), mem', owner - {b}, f)
  {
    hide Bit, ReadSb, BlockWithBit;
    Unmark(sb, disk, mem, owner, gone, b);
    BitBlockIsMeta(sb, b);
    var disk' := DiskWithBit(sb, disk, b, false);
    forall g, t | 0 <= g < |mem| && g != f && 0 <= t < SLOTS
      ensures RefOf(disk', mem', g, t) == RefOf(disk, mem, g, t)
    {
      assert RefOf(disk', mem, g, t) == RefOf(disk, mem, g, t);
    }
    forall g, bn | 0 <= g < |mem| && g != f && 0 <= bn < MAXFILE
      ensures Content(disk', mem', g, bn) == Content(disk, mem, g, bn)
    {
      assert RefOf(disk', mem', g, SlotOf(bn)) == RefOf(disk, mem, g, SlotOf(bn));
    }
  }

  lemma ReadPiece(sb: Superblock, disk: seq<Block>, mem: seq<Inode>, disk': seq<Block>, mem': seq<Inode>,
                  owner': map<nat, Owner>, f: nat, off: nat, m: nat)
    requires f < |mem| == |mem'| && off % BSIZE + m <= BSIZE && 0 < m && off + m <= mem[f].size <= MAXBYTES
    requires Grown(sb, disk, mem, disk', mem', f) && Owns(sb, disk', mem', owner', {})
    requires RefOf(disk', mem', f, SlotOf(off / BSIZE)) != 0
    ensures var addr := RefOf(disk', mem', f, SlotOf(off / BSIZE));
      addr < |disk'| && disk'[addr][off % BSIZE..off % BSIZE + m] == Data(disk, mem, f)[off..off + m]
  {
    hide Bit, ReadSb, RefOf, Bytes;
    var addr := RefOf(disk', mem', f, SlotOf(off / BSIZE));
    assert addr in owner';
    assert SameFile(disk, mem, disk', mem', f);
    var block := Content(disk, mem, f, off / BSIZE);
    assert block == disk'[addr];
    var got, want := block[off % BSIZE..off % BSIZE + m], Data(disk, mem, f)[off..off + m];
    forall i | 0 <= i < m
      ensures got[i] == want[i]
    {
      assert (off + i) / BSIZE == off / BSIZE && (off + i) % BSIZE == off % BSIZE + i;
      assert Data(disk, mem, f)[off + i] == View(disk, mem, f, off + i);
    }
  }

  lemma StillMapped(disk: seq<Block>, mem: seq<Inode>, disk1: seq<Block>, mem1: seq<Inode>, f: nat, start: nat,
                    end: nat, off: nat)
    requires f < |mem| == |mem1| && start <= off < end <= MAXBYTES && KeepsRefs(disk, mem, disk1, mem1)
    ensures Mapped(disk, mem, f, start, end) ==> RefOf(disk1, mem1, f, SlotOf(off / BSIZE)) != 0
  {
    hide RefOf;
    if Mapped(disk, mem, f, start, end) {
      assert RefOf(disk, mem, f, SlotOf(off / BSIZE)) != 0;
    }
  }

  lemma InsideIsMapped(disk: seq<Block>, mem: seq<Inode>, f: nat, off: nat, end: nat)
    requires f < |mem|
    ensures NoHoles(disk, mem, f) && end <= mem[f].size ==> Mapped(disk, mem, f, off, end)
  {
    hide RefOf;
  }

  lemma WroteEmpty(sb: Superblock, disk: seq<Block>, mem: seq<Inode>, f: nat, off: nat)
    requires f < |mem|
    ensures Wrote(sb, disk, mem, disk, mem, f, off, [])
  {
    hide RefOf, Content;
  }

  lemma PartWay(sb: Superblock, disk: seq<Block>, mem: seq<Inode>, disk1: seq<Block>, mem1: seq<Inode>,
                disk2: seq<Block>, mem2: seq<Inode>, f: nat, off: nat, data: seq<byte>)
    requires f < |mem| == |mem1| && Wrote(sb, disk, mem, disk1, mem1, f, off, data)
    requires OthersSame(disk1, mem1, disk2, mem2, f) && OnlyAddrs(mem1, mem2, f)
    ensures OthersSame(disk, mem, disk2, mem2, f) && OnlyAddrs(mem, mem2, f)
  {
    hide SameFile;
    forall g | 0 <= g < |mem| && g != f
      ensures SameFile(disk, mem, disk2, mem2, g)
    {
      SameTwice(disk, mem, disk1, mem1, disk2, mem2, g);
    }
  }

  /** Fields of an inode other than the addresses own no block and move no address. */
  lemma Restated(sb: Superblock, disk: seq<Block>, mem: seq<Inode>, owner: map<nat, Owner>, f: nat, ip: Inode)
    requires Owns(sb, disk, mem, owner, {}) && f < |mem| && ip.addrs == mem[f].addrs
    ensures var mem' := mem[f := ip];
      && Owns(sb, disk, mem', owner, {})
      && SameFiles(disk, mem, disk, mem') && KeepsRefs(disk, mem, disk, mem')
      && forall t | 0 <= t < SLOTS :: RefOf(disk, mem', f, t) == RefOf(disk, mem, f, t)
  {
    hide Bit, ReadSb, BlockAt;
    var mem' := mem[f := ip];
    forall g, t | 0 <= g < |mem| && 0 <= t < SLOTS
      ensures RefOf(disk, mem', g, t) == RefOf(disk, mem, g, t)
    {
    }
    RestatedOwns(sb, disk, mem, mem', owner);
  }

  lemma RestatedOwns(sb: Superblock, disk: seq<Block>, mem: seq<Inode>, mem': seq<Inode>, owner: map<nat, Owner>)
    requires Owns(sb, disk, mem, owner, {}) && |mem'| == |mem|
    requires forall g, t | 0 <= g < |mem| && 0 <= t < SLOTS :: RefOf(disk, mem', g, t) == RefOf(disk, mem, g, t)
    ensures Owns(sb, disk, mem', owner, {}) && SameFiles(disk, mem, disk, mem')
  {
    hide Bit, ReadSb, RefOf, BlockAt;
  }

  lemma InPlaceResult(sb: Superblock, disk: seq<Block>, mem: seq<Inode>, disk1: seq<Block>, mem1: seq<Inode>, f: nat,
                      off: nat, src: seq<byte>)
    requires DiskOk(sb, disk) && DiskOk(sb, disk1) && f < |mem| == |mem1| == sb.ninodes && SizesOk(mem)
    requires off + |src| <= mem[f].size && Wrote(sb, disk, mem, disk1, mem1, f, off, src)
    ensures WriteResult(sb, disk, mem, disk1, mem1, f, off, src)
  {
    hide ReadSb, RefOf, SameFile, Overlaid, Mapped, Data, DiskInode, Spliced, TailZero;
    WroteData(disk, mem, disk1, mem1, f, off, src);
    if TailZero(disk, mem, f) {
      WroteTail(disk, mem, disk1, mem1, f, off, src);
    }
    if NoHoles(disk, mem, f) {
      WroteNoHoles(disk, mem, disk1, mem1, f, off, off + |src|);
      if SyncedBut(sb, disk, mem, -1) {
        SyncFrame(sb, disk, disk1, mem, -1);
      }
    }
  }

  lemma GrewResult(sb: Superblock, disk: seq<Block>, mem: seq<Inode>, disk1: seq<Block>, mem1: seq<Inode>,
                   disk2: seq<Block>, mem2: seq<Inode>, f: nat, off: nat, src: seq<byte>)
    requires DiskOk(sb, disk) && DiskOk(sb, disk1) && DiskOk(sb, disk2) && f < |mem| == |mem1| == sb.ninodes
             && SizesOk(mem)
    requires off <= mem[f].size <= off + |src| <= MAXBYTES && Wrote(sb, disk, mem, disk1, mem1, f, off, src)
    requires mem2 == mem1[f := mem1[f].(size := off + |src|)]
    requires SameFiles(disk1, mem1, disk1, mem2) && SameFiles(disk1, mem2, disk2, mem2)
    requires KeepsRefs(disk1, mem1, disk1, mem2) && SameRefs(disk1, disk2, mem2)
    requires forall g | 0 <= g < |mem2| ::
               DiskInode(sb, disk2, g) == if g == f then mem2[f] else DiskInode(sb, disk1, g)
    ensures WriteResult(sb, disk, mem, disk2, mem2, f, off, src) && OthersSame(disk, mem, disk2, mem2, f)
  {
    hide ReadSb, RefOf, SameFile, Overlaid, Mapped, Data, DiskInode, Spliced, TailZero;
    SameRefsKeep(disk1, disk2, mem2);
    KeepsTwice(disk1, mem1, disk1, mem2, disk2, mem2);
    KeepsTwice(disk, mem, disk1, mem1, disk2, mem2);
    forall g | 0 <= g < |mem|
      ensures SameFile(disk1, mem1, disk2, mem2, g)
      ensures g != f ==> SameFile(disk, mem, disk2, mem2, g)
    {
      SameTwice(disk1, mem1, disk1, mem2, disk2, mem2, g);
      if g != f {
        SameTwice(disk, mem, disk1, mem1, disk2, mem2, g);
      }
    }
    StillOverlaid(disk, mem, disk1, mem1, disk2, mem2, f, off, src);
    WroteData(disk, mem, disk2, mem2, f, off, src);
    if TailZero(disk, mem, f) {
      WroteTail(disk, mem, disk2, mem2, f, off, src);
    }
    if NoHoles(disk, mem, f) {
      MappedTwice(disk1, mem1, disk2, mem2, f, off, off + |src|, off + |src|);
      WroteNoHoles(disk, mem, disk2, mem2, f, off, off + |src|);
      if SyncedBut(sb, disk, mem, -1) {
        SyncFrame(sb, disk, disk1, mem, -1);
        assert SyncedBut(sb, disk2, mem2, -1);
      }
    }
  }

  lemma StillOverlaid(disk: seq<Block>, mem: seq<Inode>, disk1: seq<Block>, mem1: seq<Inode>, disk2: seq<Block>,
                      mem2: seq<Inode>, f: nat, off: nat, data: seq<byte>)
    requires f < |mem| && f < |mem1| && f < |mem2|
    requires Overlaid(disk, mem, disk1, mem1, f, off, data) && SameFile(disk1, mem1, disk2, mem2, f)
    ensures Overlaid(disk, mem, disk2, mem2, f, off, data)
  {
    hide Content;
    forall k | 0 <= k < MAXBYTES
      ensures View(disk2, mem2, f, k) == View(disk1, mem1, f, k)
    {
      assert Content(disk2, mem2, f, k / BSIZE) == Content(disk1, mem1, f, k / BSIZE);
    }
  }

  lemma PointerInRange(sb: Superblock, disk: seq<Block>, mem: seq<Inode>, owner: map<nat, Owner>, f: nat)
    requires Owns(sb, disk, mem, owner, {}) && f < |mem| && mem[f].addrs[NDIRECT] != 0
    ensures mem[f].addrs[NDIRECT] < |disk|
  {
    hide Bit, ReadSb;
    assert RefOf(disk, mem, f, NDIRECT) == mem[f].addrs[NDIRECT];
  }
}
