/** The inode cache of fs.c: slots with reference counts and busy flags. Slots with a reference
    stand for distinct inodes; the contents of a cached inode are FileSys.mem. */
module InodeCache {
  import opened Blocks
  import opened Bitmap
  import opened Ownership
  import opened Inodes
  import opened FileView
  import opened FileSystem
  import opened FileRuns

  datatype CacheSlot = CacheSlot(inum: nat, ref: nat, busy: bool)

  /** at gives the slot of each referenced inode. */
  ghost predicate Indexed(slots: seq<CacheSlot>, at: map<nat, nat>)
  {
    && (forall i | i in at :: at[i] < |slots| && slots[at[i]].ref > 0 && slots[at[i]].inum == i)
    && (forall s | 0 <= s < |slots| && slots[s].ref > 0 :: slots[s].inum in at && at[slots[s].inum] == s)
    && (forall s | 0 <= s < |slots| && slots[s].busy :: slots[s].ref > 0)
  }

  /** The references to an inode: how many, and through which slot. */
  datatype Ref = Ref(count: nat, slot: nat)

  ghost function RefsIn(slots: seq<CacheSlot>, at: map<nat, nat>): map<nat, Ref>
    requires Indexed(slots, at)
  {
    map i | i in at :: Ref(slots[at[i]].ref, at[i])
  }

  ghost function LocksIn(slots: seq<CacheSlot>, at: map<nat, nat>): set<nat>
    requires Indexed(slots, at)
  {
    set i | i in at && slots[at[i]].busy
  }

  /** One reference more on i, in slot s; one less on i. */
  ghost function Plus(refs: map<nat, Ref>, i: nat, s: nat): map<nat, Ref>
  {
    refs[i := Ref((if i in refs then refs[i].count else 0) + 1, s)]
  }

  ghost function Minus(refs: map<nat, Ref>, i: nat): map<nat, Ref>
    requires i in refs && refs[i].count > 0
  {
    if refs[i].count == 1 then refs - {i} else refs[i := Ref(refs[i].count - 1, refs[i].slot)]
  }

  /** An inode that is cached already is referenced through the slot it has. */
  ghost predicate InPlace(refs: map<nat, Ref>, i: nat, s: nat)
  {
    i in refs ==> refs[i].count > 0 && refs[i].slot == s
  }

  lemma PlusMinus(refs: map<nat, Ref>, i: nat, s: nat)
    requires InPlace(refs, i, s)
    ensures Minus(Plus(refs, i, s), i) == refs
  {
  }

  lemma PlusPlusMinus(refs: map<nat, Ref>, i: nat, s: nat, j: nat, t: nat)
    requires InPlace(refs, i, s) && InPlace(refs, j, t) && (i == j ==> s == t)
    ensures Minus(Plus(Plus(refs, i, s), j, t), i) == Plus(refs, j, t)
  {
  }

  lemma RefHeld(slots: seq<CacheSlot>, at: map<nat, nat>, i: nat)
    requires Indexed(slots, at)
    ensures i in RefsIn(slots, at) <==> i in at
    ensures i in at ==> at[i] < |slots| && RefsIn(slots, at)[i] == Ref(slots[at[i]].ref, at[i]) && slots[at[i]].ref > 0
  {
  }

  lemma SlotPlus(slots: seq<CacheSlot>, at: map<nat, nat>, i: nat)
    requires Indexed(slots, at) && i in at
    ensures at[i] < |slots| && slots[at[i]].ref > 0 && slots[at[i]].inum == i
    ensures var now := slots[at[i] := slots[at[i]].(ref := slots[at[i]].ref + 1)];
      Indexed(now, at) && RefsIn(now, at) == Plus(RefsIn(slots, at), i, at[i]) && LocksIn(now, at) == LocksIn(slots, at)
  {
  }

  lemma SlotNew(slots: seq<CacheSlot>, at: map<nat, nat>, i: nat, s: nat)
    requires Indexed(slots, at) && i !in at && s < |slots| && slots[s].ref == 0
    ensures var now, at' := slots[s := CacheSlot(i, 1, false)], at[i := s];
      Indexed(now, at') && RefsIn(now, at') == Plus(RefsIn(slots, at), i, s) && LocksIn(now, at') == LocksIn(slots, at)
  {
  }

  lemma SlotLess(slots: seq<CacheSlot>, at: map<nat, nat>, i: nat)
    requires Indexed(slots, at) && i in at && slots[at[i]].ref > 1
    ensures var now := slots[at[i] := slots[at[i]].(ref := slots[at[i]].ref - 1)];
      Indexed(now, at) && RefsIn(now, at) == Minus(RefsIn(slots, at), i) && LocksIn(now, at) == LocksIn(slots, at)
  {
  }

  lemma SlotLast(slots: seq<CacheSlot>, at: map<nat, nat>, i: nat)
    requires Indexed(slots, at) && i in at && slots[at[i]].ref == 1 && i !in LocksIn(slots, at)
    ensures var now, at' := slots[at[i] := slots[at[i]].(ref := 0)], at - {i};
      Indexed(now, at') && RefsIn(now, at') == Minus(RefsIn(slots, at), i) && LocksIn(now, at') == LocksIn(slots, at)
  {
    var now, at' := slots[at[i] := slots[at[i]].(ref := 0)], at - {i};
    assert forall j | j in at' :: now[at'[j]] == slots[at[j]];
  }

  lemma SlotMinus(slots: seq<CacheSlot>, at: map<nat, nat>, i: nat)
    requires Indexed(slots, at) && i in at && (i !in LocksIn(slots, at) || slots[at[i]].ref > 1)
    ensures at[i] < |slots| && slots[at[i]].ref > 0 && RefsIn(slots, at)[i].count == slots[at[i]].ref
    ensures var now := slots[at[i] := slots[at[i]].(ref := slots[at[i]].ref - 1)];
      var at' := if slots[at[i]].ref == 1 then at - {i} else at;
      Indexed(now, at') && RefsIn(now, at') == Minus(RefsIn(slots, at), i) && LocksIn(now, at') == LocksIn(slots, at)
  {
    hide Minus, LocksIn;
    if slots[at[i]].ref == 1 {
      SlotLast(slots, at, i);
    } else {
      SlotLess(slots, at, i);
    }
  }

  lemma SlotBusy(slots: seq<CacheSlot>, at: map<nat, nat>, i: nat, b: bool)
    requires Indexed(slots, at) && i in at
    ensures at[i] < |slots|
    ensures var now := slots[at[i] := slots[at[i]].(busy := b)];
      Indexed(now, at) && RefsIn(now, at) == RefsIn(slots, at)
      && LocksIn(now, at) == if b then LocksIn(slots, at) + {i} else LocksIn(slots, at) - {i}
  {
  }

  lemma SlotFound(slots: seq<CacheSlot>, at: map<nat, nat>, i: nat, s: nat)
    requires Indexed(slots, at) && s <= |slots| && forall k | 0 <= k < s :: !(slots[k].ref > 0 && slots[k].inum == i)
    ensures s == |slots| ==> i !in at
    ensures s < |slots| && slots[s].ref > 0 && slots[s].inum == i ==> i in at && at[i] == s
  {
  }

  class Icache {
    const fs: FileSys
    var slots: seq<CacheSlot>
    ghost var at: map<nat, nat>

    /** iinit, for a cache of n slots. */
    constructor (f: FileSys, n: nat)
      ensures Ok() && fs == f && |slots| == n && Refs() == map[] && Locks() == {}
      ensures forall k | 0 <= k < n :: slots[k].ref == 0
    {
      fs := f;
      slots := seq(n, _ => CacheSlot(0, 0, false));
      at := map[];
    }

    ghost predicate Ok()
      reads this
    {
      Indexed(slots, at)
    }

    /** The reference count of each inode that has any. */
    ghost function Refs(): map<nat, Ref>
      requires Ok()
      reads this
    {
      RefsIn(slots, at)
    }

    /** The inodes that are locked. */
    ghost function Locks(): set<nat>
      requires Ok()
      reads this
    {
      LocksIn(slots, at)
    }

    /** Slot s stands for inode i. */
    ghost predicate Points(s: nat, i: nat)
      requires Ok()
      reads this
    {
      i in Refs() && Refs()[i].slot == s
    }

    /** iget: one more reference on inum, in its slot or in the first empty one; it fails (panics)
        exactly when every slot is taken and none is the inode's. */
    method Iget(inum: nat) returns (ok: bool, s: nat)
      requires Ok()
      modifies this`slots, this`at
      ensures Ok()
      ensures ok ==>
                Points(s, inum) && Refs() == Plus(old(Refs()), inum, s) && InPlace(old(Refs()), inum, s)
                && Locks() == old(Locks())
      ensures !ok ==> slots == old(slots) && at == old(at)
      ensures !ok <==> inum !in old(at) && forall k | 0 <= k < |old(slots)| :: old(slots)[k].ref > 0
    {
      hide Indexed, RefsIn, LocksIn;
      RefHeld(slots, at, inum);
      var empty: int := -1;
      s := 0;
      while s < |slots|
        invariant 0 <= s <= |slots| && slots == old(slots) && at == old(at)
        invariant forall k | 0 <= k < s :: !(slots[k].ref > 0 && slots[k].inum == inum)
        invariant empty == -1 ==> forall k | 0 <= k < s :: slots[k].ref > 0
        invariant empty != -1 ==> 0 <= empty < s && slots[empty].ref == 0
      {
        SlotFound(slots, at, inum, s);
        if slots[s].ref > 0 && slots[s].inum == inum {
          SlotPlus(slots, at, inum);
          slots := slots[s := slots[s].(ref := slots[s].ref + 1)];
          return true, s;
        }
        if empty == -1 && slots[s].ref == 0 {
          empty := s;
        }
        s := s + 1;
      }
      SlotFound(slots, at, inum, s);
      if empty == -1 {
        return false, 0;
      }
      s, ok := empty, true;
      SlotNew(slots, at, inum, s);
      slots := slots[s := CacheSlot(inum, 1, false)];
      at := at[inum := s];
    }

    /** idup. */
    method Idup(s: nat, ghost i: nat)
      requires Ok() && Points(s, i)
      modifies this`slots
      ensures Ok() && Points(s, i) && Refs() == Plus(old(Refs()), i, s) && InPlace(old(Refs()), i, s)
              && Locks() == old(Locks())
    {
      hide Indexed, RefsIn, LocksIn;
      RefHeld(slots, at, i);
      SlotPlus(slots, at, i);
      slots := slots[s := slots[s].(ref := slots[s].ref + 1)];
    }

    /** ilock, of an inode that no one holds. It panics ("no type") exactly on a free inode. */
    method Ilock(s: nat, ghost i: nat) returns (ok: bool)
      requires Ok() && Points(s, i) && i !in Locks() && i < |fs.mem|
      modifies this`slots
      ensures Ok() && (ok <==> fs.mem[i].kind != 0) && Refs() == old(Refs())
      ensures Locks() == if ok then old(Locks()) + {i} else old(Locks())
    {
      hide Indexed, RefsIn, LocksIn;
      RefHeld(slots, at, i);
      SlotPlus(slots, at, i);
      SlotBusy(slots, at, i, true);
      ok := fs.mem[slots[s].inum].kind != 0;
      if ok {
        slots := slots[s := slots[s].(busy := true)];
      }
    }

    /** iunlock. */
    method Iunlock(s: nat, ghost i: nat)
      requires Ok() && Points(s, i) && i in Locks()
      modifies this`slots
      ensures Ok() && Refs() == old(Refs()) && Locks() == old(Locks()) - {i}
    {
      hide Indexed, RefsIn, LocksIn;
      RefHeld(slots, at, i);
      SlotBusy(slots, at, i, false);
      slots := slots[s := slots[s].(busy := false)];
    }

    /** iput: one reference less. The last reference to an inode without links frees the inode and
        its blocks; otherwise the file system does not change. */
    method Iput(s: nat, i: nat)
      requires Ok() && Points(s, i) && (i !in Locks() || Refs()[i].count > 1) && Sound(fs) && i < |fs.mem|
      modifies this`slots, this`at, fs
      ensures Ok() && Refs() == Minus(old(Refs()), i) && Locks() == old(Locks())
      ensures Sound(fs) && |fs.mem| == old(|fs.mem|)
      ensures old(Refs()[i].count > 1 || fs.mem[i].nlink != 0) ==> fs.disk == old(fs.disk) && fs.mem == old(fs.mem)
      ensures old(Refs()[i].count == 1 && fs.mem[i].nlink == 0) ==> Freed(old(fs.disk), old(fs.mem), fs.disk, fs.mem, i)
    {
      hide Sound, Indexed, RefsIn, LocksIn, Minus;
      RefHeld(slots, at, i);
      SlotMinus(slots, at, i);
      if slots[s].ref == 1 && fs.mem[i].nlink == 0 {
        FreeInode(fs, i);
      }
      slots, at := slots[s := slots[s].(ref := slots[s].ref - 1)], if slots[s].ref == 1 then at - {i} else at;
    }
  }

  /** Every slot of the cache is taken. */
  ghost predicate CacheFull(ic: Icache)
    reads ic
  {
    forall k | 0 <= k < |ic.slots| :: ic.slots[k].ref > 0
  }

  /** Inode i is free and empty; every other inode and file is as before. */
  ghost predicate Freed(disk: seq<Block>, mem: seq<Inode>, disk': seq<Block>, mem': seq<Inode>, i: nat)
    requires i < |mem| && SizesOk(mem)
  {
    && SizesOk(mem') && |mem'| == |mem|
    && mem' == mem[i := mem[i].(kind := 0, size := 0, addrs := ZeroUpTo(mem[i].addrs, NDIRECT + 1))]
    && FilesOf(disk', mem') == FilesOf(disk, mem)[i := []]
  }

  /** Truncate, clear the type, write the inode. */
  method FreeInode(fs: FileSys, i: nat)
    requires Sound(fs) && i < |fs.mem|
    modifies fs
    ensures Sound(fs) && |fs.mem| == old(|fs.mem|) && Freed(old(fs.disk), old(fs.mem), fs.disk, fs.mem, i)
  {
    hide BitsMatch, OwnersRight, RefsOwned, Data, SameFile, OthersRefs, NoHoles, TailZero, DiskInode, Bit, ReadSb,
         BitsOfGone;
    fs.Itrunc(i);
    OthersKeep(old(fs.disk), old(fs.mem), fs.disk, fs.mem, i);
    OthersMapped(old(fs.disk), old(fs.mem), fs.disk, fs.mem, i);
    SetFields(fs, i, fs.mem[i].(kind := 0));
  }

  /** Fields other than size and addresses are stored by an assignment and iupdate. */
  method SetFields(fs: FileSys, i: nat, ip: Inode)
    requires Sound(fs) && i < |fs.mem| && ip.size == fs.mem[i].size && ip.addrs == fs.mem[i].addrs
    modifies fs
    ensures Sound(fs) && fs.mem == old(fs.mem)[i := ip]
    ensures FilesOf(fs.disk, fs.mem) == old(FilesOf(fs.disk, fs.mem))
  {
    hide BitsMatch, OwnersRight, RefsOwned, Data, SameFile, NoHoles, TailZero, DiskInode, Bit, ReadSb, KeepsRefs,
         SameRefs, Stored;
    ghost var disk0, mem0 := fs.disk, fs.mem;
    Restated(fs.sb, fs.disk, fs.mem, fs.owner, i, ip);
    fs.mem := fs.mem[i := ip];
    fs.Iupdate(i);
    FieldsSettle(fs.sb, disk0, mem0, fs.disk, fs.mem, i);
  }

  lemma FieldsSettle(sb: Superblock, disk: seq<Block>, mem: seq<Inode>, disk': seq<Block>, mem': seq<Inode>, f: nat)
    requires Settled(sb, disk, mem) && DiskOk(sb, disk') && f < |mem|
    requires |mem'| == |mem| && mem' == mem[f := mem'[f]] && mem'[f].size == mem[f].size
    requires SameFiles(disk, mem, disk, mem') && SameFiles(disk, mem', disk', mem')
    requires KeepsRefs(disk, mem, disk, mem') && SameRefs(disk, disk', mem')
    requires forall g | 0 <= g < |mem| :: DiskInode(sb, disk', g) == if g == f then mem'[f] else DiskInode(sb, disk, g)
    ensures Settled(sb, disk', mem') && FilesOf(disk', mem') == FilesOf(disk, mem)
  {
    hide ReadSb, DiskInode, SameFile, RefOf, View, TailZero, Data;
    SameRefsKeep(disk, disk', mem');
    KeepsTwice(disk, mem, disk, mem', disk', mem');
    var now, was := FilesOf(disk', mem'), FilesOf(disk, mem);
    forall g | 0 <= g < |mem|
      ensures now[g] == was[g] && TailZero(disk', mem', g) && NoHoles(disk', mem', g)
    {
      SameTwice(disk, mem, disk, mem', disk', mem', g);
      SameData(disk, mem, disk', mem', g);
      SameTail(disk, mem, disk', mem', g);
      assert NoHoles(disk, mem, g);
    }
  }
}
