/** What a file holds: a function from block index to block in which an unmapped block reads as
    zeros, and the byte sequence cut from it by the size field. */
module FileView {
  import opened Blocks
  import opened Bitmap
  import opened Ownership

  const MAXBYTES: nat := 71680       // MAXFILE * BSIZE

  function BlockAt(disk: seq<Block>, a: nat): Block
  {
    if a == 0 || a >= |disk| then ZERO else disk[a]
  }

  function Content(disk: seq<Block>, mem: seq<Inode>, f: nat, bn: nat): Block
    requires f < |mem| && bn < MAXFILE
  {
    BlockAt(disk, RefOf(disk, mem, f, SlotOf(bn)))
  }

  function View(disk: seq<Block>, mem: seq<Inode>, f: nat, k: nat): byte
    requires f < |mem| && k < MAXBYTES
  {
    Content(disk, mem, f, k / BSIZE)[k % BSIZE]
  }

  /** The first n bytes of file f. */
  function Bytes(disk: seq<Block>, mem: seq<Inode>, f: nat, n: nat): (r: seq<byte>)
    requires f < |mem| && n <= MAXBYTES
    ensures |r| == n && forall k | 0 <= k < n :: r[k] == View(disk, mem, f, k)
  {
    if n == 0 then [] else Bytes(disk, mem, f, n - 1) + [View(disk, mem, f, n - 1)]
  }

  ghost predicate SizesOk(mem: seq<Inode>)
  {
    forall f | 0 <= f < |mem| :: mem[f].size <= MAXBYTES
  }

  /** The bytes of file f. */
  function Data(disk: seq<Block>, mem: seq<Inode>, f: nat): (r: seq<byte>)
    requires f < |mem| && mem[f].size <= MAXBYTES
    ensures |r| == mem[f].size
  {
    Bytes(disk, mem, f, mem[f].size)
  }

  /** Every block inside the size is mapped. */
  ghost predicate NoHoles(disk: seq<Block>, mem: seq<Inode>, f: nat)
    requires f < |mem|
  {
    forall bn | 0 <= bn < MAXFILE && bn * BSIZE < mem[f].size :: RefOf(disk, mem, f, SlotOf(bn)) != 0
  }

  /** The rest of the last block, and all that could follow it, reads as zeros. */
  ghost predicate TailZero(disk: seq<Block>, mem: seq<Inode>, f: nat)
    requires f < |mem|
  {
    forall k | mem[f].size <= k < MAXBYTES :: View(disk, mem, f, k) == 0
  }

  lemma SameTail(disk: seq<Block>, mem: seq<Inode>, disk': seq<Block>, mem': seq<Inode>, g: nat)
    requires g < |mem| && g < |mem'| && SameFile(disk, mem, disk', mem', g) && TailZero(disk, mem, g)
    requires mem[g].size <= mem'[g].size
    ensures TailZero(disk', mem', g)
  {
    hide Content;
    forall k | mem'[g].size <= k < MAXBYTES
      ensures View(disk', mem', g, k) == 0
    {
      assert Content(disk', mem', g, k / BSIZE) == Content(disk, mem, g, k / BSIZE);
      assert View(disk, mem, g, k) == 0;
    }
  }

  ghost predicate SameFile(disk: seq<Block>, mem: seq<Inode>, disk': seq<Block>, mem': seq<Inode>, g: nat)
    requires g < |mem| && g < |mem'|
  {
    forall bn | 0 <= bn < MAXFILE :: Content(disk', mem', g, bn) == Content(disk, mem, g, bn)
  }

  ghost predicate SameFiles(disk: seq<Block>, mem: seq<Inode>, disk': seq<Block>, mem': seq<Inode>)
  {
    |mem'| == |mem| && forall g | 0 <= g < |mem| :: SameFile(disk, mem, disk', mem', g)
  }

  /** Equal contents and equal size are equal bytes. */
  lemma SameData(disk: seq<Block>, mem: seq<Inode>, disk': seq<Block>, mem': seq<Inode>, g: nat)
    requires g < |mem| && g < |mem'| && SameFile(disk, mem, disk', mem', g)
    requires mem'[g].size == mem[g].size <= MAXBYTES
    ensures Data(disk', mem', g) == Data(disk, mem, g)
  {
    hide Content, Bytes;
    var now, was := Data(disk', mem', g), Data(disk, mem, g);
    forall k | 0 <= k < mem[g].size
      ensures now[k] == was[k]
    {
      assert Content(disk', mem', g, k / BSIZE) == Content(disk, mem, g, k / BSIZE);
    }
  }

  /** Moving no address and rewriting no owned block changes no file. */
  lemma SameRefsFiles(sb: Superblock, disk: seq<Block>, disk': seq<Block>, mem: seq<Inode>, owner: map<nat, Owner>)
    requires Owns(sb, disk, mem, owner, {}) && SameRefs(disk, disk', mem) && |disk'| == |disk|
    requires forall b | b in owner :: b < |disk| && disk'[b] == disk[b]
    ensures SameFiles(disk, mem, disk', mem)
  {
    hide Bit, ReadSb, RefOf;
    forall g, bn | 0 <= g < |mem| && 0 <= bn < MAXFILE
      ensures Content(disk', mem, g, bn) == Content(disk, mem, g, bn)
    {
      assert RefOf(disk', mem, g, SlotOf(bn)) == RefOf(disk, mem, g, SlotOf(bn));
    }
  }

  /** Mapping a zeroed block where there was none changes no file. */
  lemma ClaimFiles(sb: Superblock, disk: seq<Block>, mem: seq<Inode>, owner: map<nat, Owner>,
                   disk': seq<Block>, mem': seq<Inode>, f: nat, s: nat, b: nat)
    requires Owns(sb, disk, mem, owner, {}) && |disk'| == |disk| && b < |disk|
    requires f < |mem| && s < SLOTS && RefOf(disk, mem, f, s) == 0 && PutsRef(disk, mem, disk', mem', f, s, b)
    requires s != NDIRECT ==> disk'[b] == ZERO
    requires forall k | k in owner && owner[k].slot != NDIRECT :: k < |disk| && disk'[k] == disk[k]
    ensures SameFiles(disk, mem, disk', mem')
  {
    hide Bit, ReadSb, RefOf;
    forall g, bn | 0 <= g < |mem| && 0 <= bn < MAXFILE
      ensures Content(disk', mem', g, bn) == Content(disk, mem, g, bn)
    {
      var t := SlotOf(bn);
      assert RefOf(disk', mem', g, t) == if g == f && t == s then b else RefOf(disk, mem, g, t);
    }
  }

  /** Rewriting a mapped block changes that block of that file and nothing else. */
  lemma WriteBlock(sb: Superblock, disk: seq<Block>, mem: seq<Inode>, owner: map<nat, Owner>, f: nat, bn: nat, d: Block)
    requires Owns(sb, disk, mem, owner, {}) && f < |mem| && bn < MAXFILE && RefOf(disk, mem, f, SlotOf(bn)) != 0
    ensures var a := RefOf(disk, mem, f, SlotOf(bn)); DataStart(sb) <= a < |disk|
    ensures var a := RefOf(disk, mem, f, SlotOf(bn));
      Owns(sb, disk[a := d], mem, owner, {}) && SameRefs(disk, disk[a := d], mem)
    ensures var a := RefOf(disk, mem, f, SlotOf(bn));
      forall g, c | 0 <= g < |mem| && 0 <= c < MAXFILE ::
        Content(disk[a := d], mem, g, c) == if g == f && c == bn then d else Content(disk, mem, g, c)
  {
    hide Bit, ReadSb, RefOf;
    var a := RefOf(disk, mem, f, SlotOf(bn));
    var disk' := disk[a := d];
    PointersOwned(sb, disk, mem, owner, {}, a);
    WriteKeepsRefs(disk, a, d, mem);
    forall b | 0 <= b < sb.size
      ensures DiskOk(sb, disk') && Bit(sb, disk', b) == Bit(sb, disk, b)
    {
      BitFrame(sb, disk, a, d, b);
    }
    SameRefsOwns(sb, disk, disk', mem, owner, {});
    forall g, c | 0 <= g < |mem| && 0 <= c < MAXFILE
      ensures Content(disk', mem, g, c) == if g == f && c == bn then d else Content(disk, mem, g, c)
    {
      assert RefOf(disk', mem, g, SlotOf(c)) == RefOf(disk, mem, g, SlotOf(c));
    }
  }

  /** Rewriting an inode block changes no ownership and no contents. */
  lemma WriteInodeBlock(sb: Superblock, disk: seq<Block>, mem: seq<Inode>, owner: map<nat, Owner>, k: nat, d: Block)
    requires Owns(sb, disk, mem, owner, {}) && 2 <= k < sb.bmapstart
    ensures Owns(sb, disk[k := d], mem, owner, {})
    ensures SameFiles(disk, mem, disk[k := d], mem) && SameRefs(disk, disk[k := d], mem)
  {
    hide Bit, ReadSb, RefOf;
    var disk' := disk[k := d];
    PointersOwned(sb, disk, mem, owner, {}, k);
    WriteKeepsRefs(disk, k, d, mem);
    forall b | 0 <= b < sb.size
      ensures DiskOk(sb, disk') && Bit(sb, disk', b) == Bit(sb, disk, b)
    {
      BitFrame(sb, disk, k, d, b);
    }
    SameRefsOwns(sb, disk, disk', mem, owner, {});
    SameRefsFiles(sb, disk, disk', mem, owner);
  }
}
