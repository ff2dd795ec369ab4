/** Which inode slot owns which data block. A slot of a file is a direct address (0 to 11), the
    pointer to its indirect block (12), or an entry of that block (13 and up). */
module Ownership {
  import opened Blocks
  import opened Bitmap

  const NDIRECT: nat := 12
  const MAXFILE: nat := 140          // NDIRECT + NINDIRECT
  const SLOTS: nat := 141

  type half = x: int | 0 <= x < 0x1_0000
  type Addrs = a: seq<word> | |a| == NDIRECT + 1 witness seq(NDIRECT + 1, _ => 0)

  datatype Inode = Inode(kind: half, major: half, minor: half, nlink: half, size: word, addrs: Addrs)
  datatype Owner = Owner(file: nat, slot: nat)

  const T_DIR: half := 1
  const T_FILE: half := 2
  const ROOTINO: nat := 1

  /** The block number in slot s, 0 for none. */
  function Ref(disk: seq<Block>, ip: Inode, s: nat): word
    requires s < SLOTS
  {
    if s <= NDIRECT then ip.addrs[s]
    else if ip.addrs[NDIRECT] == 0 || ip.addrs[NDIRECT] >= |disk| then 0
    else Word(disk[ip.addrs[NDIRECT]], s - NDIRECT - 1)
  }

  /** The slot that holds the address of block bn of a file. */
  function SlotOf(bn: nat): nat
  {
    if bn < NDIRECT then bn else bn + 1
  }

  function RefOf(disk: seq<Block>, mem: seq<Inode>, f: nat, s: nat): word
    requires f < |mem| && s < SLOTS
  {
    Ref(disk, mem[f], s)
  }

  // ---------------------------------------------------------------- the invariant

  ghost predicate BitsMatch(sb: Superblock, disk: seq<Block>, owner: map<nat, Owner>)
    requires DiskOk(sb, disk)
  {
    && (forall b | 0 <= b < DataStart(sb) :: Bit(sb, disk, b))
    && (forall b | DataStart(sb) <= b < sb.size :: Bit(sb, disk, b) <==> b in owner)
  }

  ghost predicate OwnersRight(sb: Superblock, disk: seq<Block>, mem: seq<Inode>, owner: map<nat, Owner>)
  {
    forall b | b in owner ::
      && DataStart(sb) <= b < sb.size && owner[b].file < |mem| && owner[b].slot < SLOTS
      && RefOf(disk, mem, owner[b].file, owner[b].slot) == b
  }

  /** Every address outside the slots in gone is owned by its slot. */
  ghost predicate RefsOwned(disk: seq<Block>, mem: seq<Inode>, owner: map<nat, Owner>, gone: set<Owner>)
  {
    forall f, s | 0 <= f < |mem| && 0 <= s < SLOTS && RefOf(disk, mem, f, s) != 0 && Owner(f, s) !in gone ::
      var b := RefOf(disk, mem, f, s);
      b in owner && owner[b] == Owner(f, s)
  }

  ghost predicate Owns(sb: Superblock, disk: seq<Block>, mem: seq<Inode>, owner: map<nat, Owner>, gone: set<Owner>)
  {
    && DiskOk(sb, disk)
    && BitsMatch(sb, disk, owner)
    && OwnersRight(sb, disk, mem, owner)
    && RefsOwned(disk, mem, owner, gone)
    && (forall b | b in owner :: owner[b] !in gone)
  }

  /** Block ownership in its own words: a data block is marked exactly when some slot holds it,
      and no two slots hold the same block. */
  ghost predicate Exclusive(sb: Superblock, disk: seq<Block>, mem: seq<Inode>)
    requires DiskOk(sb, disk)
  {
    && (forall b | DataStart(sb) <= b < sb.size :: Bit(sb, disk, b) <==> Held(disk, mem, b))
    && (forall f, s, g, t | 0 <= f < |mem| && 0 <= s < SLOTS && 0 <= g < |mem| && 0 <= t < SLOTS
                            && RefOf(disk, mem, f, s) == RefOf(disk, mem, g, t) != 0 :: f == g && s == t)
    && (forall f, s | 0 <= f < |mem| && 0 <= s < SLOTS && RefOf(disk, mem, f, s) != 0 ::
          DataStart(sb) <= RefOf(disk, mem, f, s) < sb.size)
  }

  ghost predicate Held(disk: seq<Block>, mem: seq<Inode>, b: nat)
  {
    exists f, s :: 0 <= f < |mem| && 0 <= s < SLOTS && RefOf(disk, mem, f, s) == b
  }

  lemma OwnsMeansExclusive(sb: Superblock, disk: seq<Block>, mem: seq<Inode>, owner: map<nat, Owner>)
    requires Owns(sb, disk, mem, owner, {})
    ensures Exclusive(sb, disk, mem)
  {
    hide Bit, Ref, ReadSb;
    forall b | DataStart(sb) <= b < sb.size
      ensures Bit(sb, disk, b) <==> Held(disk, mem, b)
    {
      if b in owner {
        assert RefOf(disk, mem, owner[b].file, owner[b].slot) == b;
      }
    }
  }

  // ---------------------------------------------------------------- writes that move no address

  ghost predicate NoPointerTo(mem: seq<Inode>, k: nat)
  {
    forall g | 0 <= g < |mem| :: mem[g].addrs[NDIRECT] != k
  }

  ghost predicate SameRefs(disk: seq<Block>, disk': seq<Block>, mem: seq<Inode>)
  {
    forall g, t | 0 <= g < |mem| && 0 <= t < SLOTS :: RefOf(disk', mem, g, t) == RefOf(disk, mem, g, t)
  }

  lemma WriteKeepsRefs(disk: seq<Block>, k: nat, d: Block, mem: seq<Inode>)
    requires k < |disk| && NoPointerTo(mem, k)
    ensures SameRefs(disk, disk[k := d], mem)
  {
    forall g, t | 0 <= g < |mem| && 0 <= t < SLOTS
      ensures RefOf(disk[k := d], mem, g, t) == RefOf(disk, mem, g, t)
    {
      assert mem[g].addrs[NDIRECT] != k;
    }
  }

  /** Only data blocks that slot 12 of some file owns are read as tables of addresses. */
  lemma PointersOwned(sb: Superblock, disk: seq<Block>, mem: seq<Inode>, owner: map<nat, Owner>, gone: set<Owner>,
                      k: nat)
    requires Owns(sb, disk, mem, owner, gone)
    requires forall o | o in gone :: o.slot > NDIRECT
    requires 0 < k < DataStart(sb) || (k in owner && owner[k].slot != NDIRECT) || (k !in owner && k != 0)
    ensures NoPointerTo(mem, k)
  {
    hide Bit, ReadSb;
    forall g | 0 <= g < |mem|
      ensures mem[g].addrs[NDIRECT] != k
    {
      assert RefOf(disk, mem, g, NDIRECT) == mem[g].addrs[NDIRECT];
    }
  }

  lemma SameRefsOwns(sb: Superblock, disk: seq<Block>, disk': seq<Block>, mem: seq<Inode>, owner: map<nat, Owner>,
                     gone: set<Owner>)
    requires Owns(sb, disk, mem, owner, gone) && SameRefs(disk, disk', mem)
    requires DiskOk(sb, disk') && BitsMatch(sb, disk', owner)
    ensures Owns(sb, disk', mem, owner, gone)
  {
    hide Bit, ReadSb, RefOf;
  }

  // ---------------------------------------------------------------- taking a block for a slot

  lemma TakenBits(sb: Superblock, disk: seq<Block>, mem: seq<Inode>, owner: map<nat, Owner>, b: nat, o: Owner)
    requires Owns(sb, disk, mem, owner, {}) && b < sb.size && !Bit(sb, disk, b)
    ensures DataStart(sb) <= b && b !in owner
    ensures DiskOk(sb, Taken(sb, disk, b)) && BitsMatch(sb, Taken(sb, disk, b), owner[b := o])
  {
    hide Bit, ReadSb, RefOf;
    var marked := DiskWithBit(sb, disk, b, true);
    forall c | 0 <= c < sb.size
      ensures DiskOk(sb, Taken(sb, disk, b)) && Bit(sb, Taken(sb, disk, b), c) == (c == b || Bit(sb, disk, c))
    {
      BitAfter(sb, disk, b, true, c);
      BitFrame(sb, marked, b, ZERO, c);
    }
  }

  lemma TakenRefs(sb: Superblock, disk: seq<Block>, mem: seq<Inode>, owner: map<nat, Owner>, b: nat)
    requires Owns(sb, disk, mem, owner, {}) && b < sb.size && !Bit(sb, disk, b)
    ensures SameRefs(disk, Taken(sb, disk, b), mem)
    ensures NoPointerTo(mem, b)
  {
    hide Bit, ReadSb, RefOf, BlockWithBit;
    var bp := BitBlock(sb, b);
    BitBlockIsMeta(sb, b);
    PointersOwned(sb, disk, mem, owner, {}, bp);
    var marked := DiskWithBit(sb, disk, b, true);
    WriteKeepsRefs(disk, bp, marked[bp], mem);
    PointersOwned(sb, disk, mem, owner, {}, b);
    WriteKeepsRefs(marked, b, ZERO, mem);
  }

  /** Slot s of file f now holds b; every other slot reads as before. */
  ghost predicate PutsRef(disk: seq<Block>, mem: seq<Inode>, disk': seq<Block>, mem': seq<Inode>, f: nat, s: nat,
                          b: nat)
  {
    && |mem'| == |mem|
    && forall g, t | 0 <= g < |mem| && 0 <= t < SLOTS ::
         RefOf(disk', mem', g, t) == if g == f && t == s then b else RefOf(disk, mem, g, t)
  }

  lemma ClaimOwns(sb: Superblock, disk: seq<Block>, mem: seq<Inode>, owner: map<nat, Owner>,
                  disk': seq<Block>, mem': seq<Inode>, f: nat, s: nat, b: nat)
    requires Owns(sb, disk, mem, owner, {})
    requires f < |mem| && s < SLOTS && RefOf(disk, mem, f, s) == 0 && DataStart(sb) <= b < sb.size && b !in owner
    requires DiskOk(sb, disk') && BitsMatch(sb, disk', owner[b := Owner(f, s)])
    requires PutsRef(disk, mem, disk', mem', f, s, b)
    ensures Owns(sb, disk', mem', owner[b := Owner(f, s)], {})
  {
    hide Bit, ReadSb, RefOf;
  }

  function WithAddr(ip: Inode, s: nat, b: word): Inode
    requires s <= NDIRECT
  {
    ip.(addrs := ip.addrs[s := b])
  }

  /** Storing a fresh zeroed block in a slot of the inode. For slot 12 the zeroing matters: the
      stale words of a reused block would turn into addresses. */
  lemma PutDirect(disk: seq<Block>, mem: seq<Inode>, f: nat, s: nat, b: word)
    requires f < |mem| && s <= NDIRECT && RefOf(disk, mem, f, s) == 0
    requires 0 < b < |disk| && disk[b] == ZERO
    ensures PutsRef(disk, mem, disk, mem[f := WithAddr(mem[f], s, b)], f, s, b)
  {
    var mem' := mem[f := WithAddr(mem[f], s, b)];
    forall g, t | 0 <= g < |mem| && 0 <= t < SLOTS
      ensures RefOf(disk, mem', g, t) == if g == f && t == s then b else RefOf(disk, mem, g, t)
    {
      if g == f && s == NDIRECT && t > NDIRECT {
        ZeroWord(t - NDIRECT - 1);
      }
    }
  }

  /** Storing an address in the indirect block of f, which no other file shares. */
  lemma PutIndirect(disk: seq<Block>, mem: seq<Inode>, f: nat, s: nat, b: word)
    requires f < |mem| && NDIRECT < s < SLOTS
    requires var k := mem[f].addrs[NDIRECT];
      0 < k < |disk| && forall g | 0 <= g < |mem| && g != f :: mem[g].addrs[NDIRECT] != k
    ensures var k := mem[f].addrs[NDIRECT];
      PutsRef(disk, mem, disk[k := SetWord(disk[k], s - NDIRECT - 1, b)], mem, f, s, b)
  {
    hide SetWord, Word;
    var k := mem[f].addrs[NDIRECT];
    var disk' := disk[k := SetWord(disk[k], s - NDIRECT - 1, b)];
    forall g, t | 0 <= g < |mem| && 0 <= t < SLOTS
      ensures RefOf(disk', mem, g, t) == if g == f && t == s then b else RefOf(disk, mem, g, t)
    {
      if g == f && t > NDIRECT {
        SetWordThenWord(disk[k], s - NDIRECT - 1, b, t - NDIRECT - 1);
      }
    }
  }

  // ---------------------------------------------------------------- giving blocks back

  /** Clearing the bit of an owned block moves no address. */
  lemma Unmark(sb: Superblock, disk: seq<Block>, mem: seq<Inode>, owner: map<nat, Owner>, gone: set<Owner>, b: nat)
    requires Owns(sb, disk, mem, owner, gone) && b in owner
    requires forall o | o in gone :: o.slot > NDIRECT
    ensures Bit(sb, disk, b)
    ensures BitsMatch(sb, DiskWithBit(sb, disk, b, false), owner - {b})
    ensures SameRefs(disk, DiskWithBit(sb, disk, b, false), mem)
  {
    hide Bit, ReadSb, RefOf, BlockWithBit;
    var disk' := DiskWithBit(sb, disk, b, false);
    forall c | 0 <= c < sb.size
      ensures Bit(sb, disk', c) == (c != b && Bit(sb, disk, c))
    {
      BitAfter(sb, disk, b, false, c);
    }
    var bp := BitBlock(sb, b);
    BitBlockIsMeta(sb, b);
    PointersOwned(sb, disk, mem, owner, gone, bp);
    WriteKeepsRefs(disk, bp, disk'[bp], mem);
  }

  /** A direct slot is freed: bit cleared, address zeroed. */
  lemma ReleaseDirect(sb: Superblock, disk: seq<Block>, mem: seq<Inode>, owner: map<nat, Owner>, f: nat, s: nat, b: nat)
    requires Owns(sb, disk, mem, owner, {}) && f < |mem| && s < NDIRECT && b == RefOf(disk, mem, f, s) != 0
    ensures b in owner && owner[b] == Owner(f, s) && Bit(sb, disk, b)
    ensures Owns(sb, DiskWithBit(sb, disk, b, false), mem[f := WithAddr(mem[f], s, 0)], owner - {b}, {})
  {
    hide Bit, ReadSb;
    Unmark(sb, disk, mem, owner, {}, b);
    var disk' := DiskWithBit(sb, disk, b, false);
    var mem' := mem[f := WithAddr(mem[f], s, 0)];
    assert PutsRef(disk, mem, disk', mem', f, s, 0) by {
      forall g, t | 0 <= g < |mem| && 0 <= t < SLOTS
        ensures RefOf(disk', mem', g, t) == if g == f && t == s then 0 else RefOf(disk, mem, g, t)
      {
        assert RefOf(disk', mem, g, t) == RefOf(disk, mem, g, t);
      }
    }
    ReleaseOwns(sb, disk, mem, owner, disk', mem', f, s, b);
  }

  lemma ReleaseOwns(sb: Superblock, disk: seq<Block>, mem: seq<Inode>, owner: map<nat, Owner>,
                    disk': seq<Block>, mem': seq<Inode>, f: nat, s: nat, b: nat)
    requires Owns(sb, disk, mem, owner, {}) && f < |mem| && s < SLOTS && b == RefOf(disk, mem, f, s) != 0
    requires DiskOk(sb, disk') && BitsMatch(sb, disk', owner - {b})
    requires PutsRef(disk, mem, disk', mem', f, s, 0)
    ensures Owns(sb, disk', mem', owner - {b}, {})
  {
    hide Bit, ReadSb, RefOf;
  }

  /** An entry of the indirect block is freed: bit cleared, entry left in place. */
  lemma ReleaseEntry(sb: Superblock, disk: seq<Block>, mem: seq<Inode>, owner: map<nat, Owner>, gone: set<Owner>,
                     f: nat, s: nat, b: nat)
    requires Owns(sb, disk, mem, owner, gone) && f < |mem| && NDIRECT < s < SLOTS && b == RefOf(disk, mem, f, s) != 0
    requires Owner(f, s) !in gone && forall o | o in gone :: o.slot > NDIRECT
    ensures b in owner && owner[b] == Owner(f, s) && Bit(sb, disk, b)
    ensures Owns(sb, DiskWithBit(sb, disk, b, false), mem, owner - {b}, gone + {Owner(f, s)})
  {
    hide Bit, ReadSb, RefOf;
    Unmark(sb, disk, mem, owner, gone, b);
  }

  /** An entry that holds no block needs no freeing. */
  lemma SkipEntry(sb: Superblock, disk: seq<Block>, mem: seq<Inode>, owner: map<nat, Owner>, gone: set<Owner>, f: nat,
                  s: nat)
    requires Owns(sb, disk, mem, owner, gone) && f < |mem| && NDIRECT < s < SLOTS && RefOf(disk, mem, f, s) == 0
    ensures Owns(sb, disk, mem, owner, gone + {Owner(f, s)})
  {
    hide Bit, ReadSb, RefOf;
  }

  /** The indirect block itself goes last, and its entries with it. */
  lemma ReleasePointer(sb: Superblock, disk: seq<Block>, mem: seq<Inode>, owner: map<nat, Owner>, gone: set<Owner>,
                       f: nat, b: nat)
    requires Owns(sb, disk, mem, owner, gone) && f < |mem| && b == RefOf(disk, mem, f, NDIRECT) != 0
    requires forall o :: o in gone <==> o.file == f && NDIRECT < o.slot < SLOTS
    ensures b in owner && owner[b] == Owner(f, NDIRECT) && Bit(sb, disk, b)
    ensures Owns(sb, DiskWithBit(sb, disk, b, false), mem[f := WithAddr(mem[f], NDIRECT, 0)], owner - {b}, {})
  {
    hide Bit, ReadSb;
    Unmark(sb, disk, mem, owner, gone, b);
    var disk' := DiskWithBit(sb, disk, b, false);
    var mem' := mem[f := WithAddr(mem[f], NDIRECT, 0)];
    forall g, t | 0 <= g < |mem| && 0 <= t < SLOTS
      ensures RefOf(disk', mem', g, t) == if g == f && t >= NDIRECT then 0 else RefOf(disk, mem, g, t)
    {
      assert RefOf(disk', mem, g, t) == RefOf(disk, mem, g, t);
    }
    PointerGone(sb, disk, mem, owner, gone, disk', mem', f, b);
  }

  lemma PointerGone(sb: Superblock, disk: seq<Block>, mem: seq<Inode>, owner: map<nat, Owner>, gone: set<Owner>,
                    disk': seq<Block>, mem': seq<Inode>, f: nat, b: nat)
    requires Owns(sb, disk, mem, owner, gone) && f < |mem| && b == RefOf(disk, mem, f, NDIRECT) != 0
    requires forall o :: o in gone <==> o.file == f && NDIRECT < o.slot < SLOTS
    requires DiskOk(sb, disk') && BitsMatch(sb, disk', owner - {b}) && |mem'| == |mem|
    requires forall g, t | 0 <= g < |mem| && 0 <= t < SLOTS ::
               RefOf(disk', mem', g, t) == if g == f && t >= NDIRECT then 0 else RefOf(disk, mem, g, t)
    ensures Owns(sb, disk', mem', owner - {b}, {})
  {
    hide Bit, ReadSb, RefOf;
  }
}
