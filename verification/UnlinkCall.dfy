/** sys_unlink (sysfile.c), with its error paths and the freeing of an inode that lost its last
    name and its last reference. */
module UnlinkCall {
  import opened Blocks
  import opened Ownership
  import opened Inodes
  import opened FileView
  import opened FileSystem
  import opened FileRuns
  import opened Directories
  import opened InodeCache
  import opened Paths
  import opened LinkState
  import opened LinkCalls
  import L = Links

  /** isdirempty: entries 2 and up are free. */
  method Isdirempty(fs: FileSys, ip: nat, ghost m: map<Name, Slot>) returns (r: bool)
    requires IsDir(fs, ip, m)
    modifies fs
    ensures fs.disk == old(fs.disk) && fs.mem == old(fs.mem) && IsDir(fs, ip, m)
    ensures r <==> L.Empty(EntList(Data(fs.disk, fs.mem, ip)))
  {
    hide Sound, EntryAt, Data, NameIn;
    DataLength(fs, ip, m);
    var i := 2;
    while DIRENT * i < fs.mem[ip].size
      invariant fs.disk == old(fs.disk) && fs.mem == old(fs.mem) && IsDir(fs, ip, m) && 2 <= i
      invariant forall j | 2 <= j < i && j < |EntList(Data(fs.disk, fs.mem, ip))| ::
                  EntList(Data(fs.disk, fs.mem, ip))[j] == 0
      decreases fs.mem[ip].size - DIRENT * i
    {
      var de := ReadEntry(fs, ip, i, m);
      if InumIn(de) != 0 {
        assert EntList(Data(fs.disk, fs.mem, ip))[i] != 0;
        return false;
      }
      i := i + 1;
    }
    r := true;
  }

  /** The counts after ip lost a name in dp. */
  ghost function OneLess(mem: seq<Inode>, dp: nat, ip: nat): seq<Inode>
    requires dp < |mem| && ip < |mem| && mem[dp].nlink > 0 && mem[ip].nlink > 0
  {
    if mem[ip].kind == T_DIR then L.WithLinks(L.WithLinks(mem, dp, mem[dp].nlink - 1), ip, mem[ip].nlink - 1)
    else L.WithLinks(mem, ip, mem[ip].nlink - 1)
  }

  ghost function WithoutName(tree: Tree, dp: nat, name: Name): Tree
  {
    if dp in tree then tree[dp := tree[dp] - {name}] else tree
  }

  /** name is an entry of linked directory dp, not one of its dots, and names ip. */
  ghost predicate Removable(disk: seq<Block>, mem: seq<Inode>, tree: Tree, dp: nat, name: Name, ip: nat)
  {
    && SizesOk(mem) && dp in tree && Known(mem, dp) && name != DOT && name != DOTDOT && name in tree[dp]
    && tree[dp][name].inum == ip && ip < |mem|
    && (mem[ip].kind == T_DIR ==> L.Empty(EntList(Data(disk, mem, ip))))
  }

  /** What is known about an entry before it is removed. */
  lemma EntryFacts(disk: seq<Block>, mem: seq<Inode>, tree: Tree, home: map<nat, L.Home>, depth: map<nat, nat>,
                   dp: nat, name: Name)
    requires FsVal(disk, mem, tree, home, depth) && dp in tree && Known(mem, dp) && name in tree[dp] && name != DOT
             && name != DOTDOT
    ensures var s := tree[dp][name];
      && s.at >= 2 && L.Names(mem, DirsOf(disk, mem), dp, s.at, s.inum)
      && s.inum != 0 && Known(mem, s.inum) && s.inum != dp
  {
    hide Data, DirIs, DirsOf, L.Counted, L.Naming, L.HomeOk;
    var s := tree[dp][name];
    NotDots(disk, mem, tree, dp, name);
    EntryOf(disk, mem, tree, dp, name);
    NameLinked(disk, mem, tree, dp, name);
    L.NamedIsLinked(mem, DirsOf(disk, mem), dp, s.at, s.inum);
    if s.inum == dp {
      DirNotSelf(mem, DirsOf(disk, mem), home, depth, dp, s.at);
    }
  }

  /** No directory is its own child. */
  lemma DirNotSelf(mem: seq<Inode>, dirs: L.Dirs, home: map<nat, L.Home>, depth: map<nat, nat>, d: nat, j: nat)
    requires L.LinkInv(mem, dirs, home, depth) && d in dirs && j >= 2
    ensures !L.Names(mem, dirs, d, j, d)
  {
    hide L.Shaped, L.Counted;
  }

  /** The state after the entry is cleared and the counts are lowered: all that is kept. */
  lemma UnlinkedVal(disk: seq<Block>, mem: seq<Inode>, disk1: seq<Block>, mem1: seq<Inode>, disk2: seq<Block>,
                    mem2: seq<Inode>,
                    tree: Tree, home: map<nat, L.Home>, depth: map<nat, nat>, dp: nat, name: Name, ip: nat)
    requires FsVal(disk, mem, tree, home, depth) && Removable(disk, mem, tree, dp, name, ip)
    requires Cleared1(disk, mem, disk1, mem1, tree, dp, name)
    requires SameBytes(disk1, mem1, disk2, mem2) && OnlyLinks(mem1, mem2) && Known(mem, ip)
             && SameLinks(OneLess(mem, dp, ip), mem2)
    ensures FsVal(disk2, mem2, WithoutName(tree, dp, name), home, depth)
    ensures OnlyEntry(disk, mem, OneLess(mem, dp, ip), disk2, mem2, dp, {dp})
  {
    hide Data, DirIs, DirsOf, L.LinkInv, FilesOf, EntryWritten, DotsNamed;
    var at, dirs := tree[dp][name].at, DirsOf(disk, mem);
    EntryFacts(disk, mem, tree, home, depth, dp, name);
    EntryOf(disk, mem, tree, dp, name);
    StillDots(disk, mem, tree, dp, name);
    TreeAfterEntry(disk, mem, disk1, mem1, tree, dp, tree[dp] - {name}, at, 0);
    WholeDir(disk, mem, tree, dp, name);
    DirsAfterEntry(disk, mem, disk1, mem1, dp, at, 0);
    DirsAfterFields(disk1, mem1, disk2, mem2);
    RemovedInv(disk, mem, tree, home, depth, dp, name, ip);
    SameLinksInv(OneLess(mem, dp, ip), mem2, L.WithEntry(dirs, dp, at, 0), home, depth);
    OthersSameBytes(disk, mem, disk1, mem1, dp, at, 0);
  }

  /** The inodes differ in their counts at most. */
  ghost predicate OnlyLinks(mem: seq<Inode>, mem': seq<Inode>)
  {
    |mem'| == |mem| && forall i | 0 <= i < |mem| :: mem'[i] == mem[i].(nlink := mem'[i].nlink)
  }

  ghost predicate Cleared1(disk: seq<Block>, mem: seq<Inode>, disk1: seq<Block>, mem1: seq<Inode>, tree: Tree,
                           dp: nat, name: Name)
  {
    && SizesOk(mem) && SizesOk(mem1) && SameKinds(mem, mem1, dp) && dp in tree && name in tree[dp] && dp < |mem|
    && EntryWritten(FilesOf(disk, mem), FilesOf(disk1, mem1), dp, tree[dp][name].at, 0)
    && DirIs(Data(disk1, mem1, dp), tree[dp] - {name})
  }

  lemma StillDots(disk: seq<Block>, mem: seq<Inode>, tree: Tree, dp: nat, name: Name)
    requires SizesOk(mem) && DirTree(disk, mem, tree) && dp in tree && name != DOT && name != DOTDOT
    ensures DotsNamed(tree[dp] - {name})
  {
    hide Data, DirIs;
  }

  lemma WholeDir(disk: seq<Block>, mem: seq<Inode>, tree: Tree, dp: nat, name: Name)
    requires SizesOk(mem) && DirTree(disk, mem, tree) && dp in tree && name in tree[dp]
    ensures Whole(Data(disk, mem, dp)) && tree[dp][name].at <= |Data(disk, mem, dp)| / DIRENT
  {
    hide Data, NameIn, InumIn, EntryAt;
  }

  lemma RemovedInv(disk: seq<Block>, mem: seq<Inode>, tree: Tree, home: map<nat, L.Home>, depth: map<nat, nat>,
                   dp: nat, name: Name, ip: nat)
    requires FsVal(disk, mem, tree, home, depth) && Removable(disk, mem, tree, dp, name, ip) && Known(mem, ip)
    requires tree[dp][name].at >= 2 && L.Names(mem, DirsOf(disk, mem), dp, tree[dp][name].at, ip) && ip != 0
    ensures dp in DirsOf(disk, mem) && tree[dp][name].at <= |DirsOf(disk, mem)[dp]|
    ensures L.LinkInv(OneLess(mem, dp, ip), L.WithEntry(DirsOf(disk, mem), dp, tree[dp][name].at, 0), home, depth)
  {
    hide Data, DirIs, L.LinkInv, EntList;
    if mem[ip].kind == T_DIR {
      L.UnlinkDirKeeps(mem, DirsOf(disk, mem), home, depth, dp, tree[dp][name].at, ip);
    } else {
      L.UnlinkFileKeeps(mem, DirsOf(disk, mem), home, depth, dp, tree[dp][name].at, ip);
    }
  }

  // ---------------------------------------------------------------- the system call

  /** Nothing is locked, the references are refs, and the file system is whole. */
  ghost predicate Quiet(ic: Icache, refs: map<nat, Ref>, tree: Tree, home: map<nat, L.Home>, depth: map<nat, nat>)
    reads ic, ic.fs
  {
    Sound(ic.fs) && FsVal(ic.fs.disk, ic.fs.mem, tree, home, depth) && ic.Ok() && ic.Refs() == refs && ic.Locks() == {}
  }

  /** The inode that name is linked to in dp, 0 for none. */
  ghost function InumOf(tree: Tree, dp: nat, name: Name): nat
  {
    if dp in tree && name in tree[dp] then tree[dp][name].inum else 0
  }

  ghost predicate CanUnlink(disk: seq<Block>, mem: seq<Inode>, tree: Tree, cwd: nat, path: seq<byte>)
  {
    && Target(tree, StartOf(path, cwd), Components(path), true).Some?
    && Removable(disk, mem, tree, ParentOf(tree, cwd, path), LastName(path),
                 InumOf(tree, ParentOf(tree, cwd, path), LastName(path)))
  }

  /** An inode that iput has freed. */
  ghost function Emptied(ino: Inode): Inode
  {
    ino.(kind := 0, size := 0, addrs := ZeroUpTo(ino.addrs, NDIRECT + 1))
  }

  /** The name is gone and the counts are lower; an inode with no link and no reference is free.
      Nothing else changes, save the directory that had the name. */
  ghost predicate UnlinkEffect(disk: seq<Block>, mem: seq<Inode>, disk': seq<Block>, mem': seq<Inode>, tree: Tree,
                               tree': Tree, refs: map<nat, Ref>, dp: nat, name: Name)
  {
    var ip := InumOf(tree, dp, name);
    && Known(mem, dp) && Known(mem, ip)
    && var less := OneLess(mem, dp, ip);
    if less[ip].nlink == 0 && ip !in refs
    then OnlyEntry(disk, mem, less[ip := Emptied(less[ip])], disk', mem', dp, {dp, ip})
         && tree' == WithoutName(tree, dp, name) - {ip}
    else OnlyEntry(disk, mem, less, disk', mem', dp, {dp}) && tree' == WithoutName(tree, dp, name)
  }

  /** iunlockput of an inode that keeps its links or another reference. */
  method PutLocked(ic: Icache, s: nat, i: nat, ghost refs: map<nat, Ref>)
    requires Sound(ic.fs) && ic.Ok() && ic.Refs() == Plus(refs, i, s) && InPlace(refs, i, s) && ic.Locks() == {i}
             && AllHeld(refs)
    requires i < |ic.fs.mem| && (i in refs || ic.fs.mem[i].nlink != 0)
    modifies ic, ic.fs
    ensures ic.Ok() && ic.Refs() == refs && ic.Locks() == {}
    ensures Sound(ic.fs) && ic.fs.disk == old(ic.fs.disk) && ic.fs.mem == old(ic.fs.mem)
  {
    hide Sound, Indexed, RefsIn, LocksIn, Plus;
    PlusHolds(refs, i, s);
    ic.Iunlock(s, i);
    Drop(ic, s, i, refs);
  }

  /** sys_unlink: it removes a name that is not a dot and does not name a directory with entries;
      otherwise it fails and changes nothing. Counts and tree stay right, and no lock or reference
      is left behind. A panic means no slot in the inode cache, or a path from a removed directory
      that gets stuck on a free inode. */
  method SysUnlink(ic: Icache, path: seq<byte>, cwdSlot: nat, cwd: nat,
                   ghost tree: Tree, ghost home: map<nat, L.Home>, ghost depth: map<nat, nat>)
    returns (r: Call, ghost tree': Tree)
    requires Ready(ic, cwdSlot, cwd, tree, home, depth) && CString(path)
    modifies ic, ic.fs
    ensures !r.CallPanic? ==> Ready(ic, cwdSlot, cwd, tree', home, depth) && ic.Refs() == old(ic.Refs())
    ensures r.CallFail? ==> !CanUnlink(old(ic.fs.disk), old(ic.fs.mem), tree, cwd, path) && tree' == tree
    ensures r.CallFail? ==> ic.fs.disk == old(ic.fs.disk) && ic.fs.mem == old(ic.fs.mem)
    ensures r.CallDone? ==> CanUnlink(old(ic.fs.disk), old(ic.fs.mem), tree, cwd, path)
    ensures r.CallDone? ==>
              UnlinkEffect(old(ic.fs.disk), old(ic.fs.mem), ic.fs.disk, ic.fs.mem, tree, tree', old(ic.Refs()),
                           ParentOf(tree, cwd, path), LastName(path))
    ensures r.CallPanic? ==> CacheFull(ic) || ParentStuck(old(ic.fs.mem), tree, cwd, path)
    ensures !r.CallPanic? ==> !ParentStuck(old(ic.fs.mem), tree, cwd, path)
  {
    hide Sound, Indexed, RefsIn, LocksIn, Plus, Data, TreeOf, DirTree, L.LinkInv, DirsOf, Target, Components,
         Removable, UnlinkEffect, OrphansHeld;
    ghost var refs := ic.Refs();
    assert AllHeld(refs) by { RefsPositive(ic.slots, ic.at); }
    ValTree(ic.fs.disk, ic.fs.mem, tree, home, depth);
    var found, name, dp := Namex(ic, path, true, cwdSlot, cwd, tree);
    if found.FoundPanic? {
      return CallPanic, tree;
    }
    if found.FoundNothing? {
      return CallFail, tree;
    }
    TargetInRange(ic.fs.disk, ic.fs.mem, tree, StartOf(path, cwd), Components(path), true);
    TruncTwice(Components(path)[|Components(path)| - 1]);
    DirInUse(ic.fs.disk, ic.fs.mem, tree, refs, dp);
    r, tree' := UnlinkName(ic, found.slot, dp, name, refs, tree, home, depth);
    if r.CallDone? {
      EffectHeld(old(ic.fs.disk), old(ic.fs.mem), ic.fs.disk, ic.fs.mem, tree, tree', home, depth, refs, dp, name);
    }
  }

  /** Unlinking leaves no inode behind that has neither a link nor a reference. */
  lemma EffectHeld(disk: seq<Block>, mem: seq<Inode>, disk': seq<Block>, mem': seq<Inode>, tree: Tree, tree': Tree,
                   home: map<nat, L.Home>, depth: map<nat, nat>, refs: map<nat, Ref>, dp: nat, name: Name)
    requires FsVal(disk, mem, tree, home, depth) && Removable(disk, mem, tree, dp, name, InumOf(tree, dp, name))
    requires OrphansHeld(mem, refs) && UnlinkEffect(disk, mem, disk', mem', tree, tree', refs, dp, name)
    ensures |mem'| == |mem| && OrphansHeld(mem', refs)
  {
    hide FsVal, Data, DirTree, EntList, L.Empty, OrphansHeld, UnlinkEffect;
    var ip := InumOf(tree, dp, name);
    if mem[ip].kind == T_DIR {
      assert Known(mem, ip) by { EntryFacts(disk, mem, tree, home, depth, dp, name); }
      TwoLinks(disk, mem, tree, home, depth, dp, name, ip);
    }
    LessHeld(disk, mem, disk', mem', tree, tree', refs, dp, name);
  }

  lemma LessHeld(disk: seq<Block>, mem: seq<Inode>, disk': seq<Block>, mem': seq<Inode>, tree: Tree, tree': Tree,
                 refs: map<nat, Ref>, dp: nat, name: Name)
    requires OrphansHeld(mem, refs) && UnlinkEffect(disk, mem, disk', mem', tree, tree', refs, dp, name)
    requires InumOf(tree, dp, name) < |mem|
             && (mem[InumOf(tree, dp, name)].kind == T_DIR ==> dp < |mem| && mem[dp].nlink >= 2)
    ensures |mem'| == |mem| && OrphansHeld(mem', refs)
  {
  }

  lemma DirInUse(disk: seq<Block>, mem: seq<Inode>, tree: Tree, refs: map<nat, Ref>, d: nat)
    requires SizesOk(mem) && DirTree(disk, mem, tree) && OrphansHeld(mem, refs) && d in tree
    ensures d < |mem| && mem[d].kind == T_DIR && (d in refs || mem[d].nlink != 0)
  {
    hide Data, DirIs;
  }

  /** A removed directory holds nothing but its dots, so there is nothing in it to unlink. */
  lemma RemovedIsEmpty(disk: seq<Block>, mem: seq<Inode>, tree: Tree, home: map<nat, L.Home>, depth: map<nat, nat>,
                       d: nat, name: Name)
    requires FsVal(disk, mem, tree, home, depth) && d in tree && d < |mem| && mem[d].nlink == 0 && name in tree[d]
    ensures name == DOT || name == DOTDOT
  {
    hide Data, DirIs, DirsOf, DirTree, L.Counted, L.Rooted;
    EntryOf(disk, mem, tree, d, name);
    assert L.Empty(DirsOf(disk, mem)[d]);
    if name != DOT && name != DOTDOT {
      NotDots(disk, mem, tree, d, name);
    }
  }

  /** sys_unlink from ilock(dp) on. */
  method UnlinkName(ic: Icache, s: nat, dp: nat, name: Name, ghost refs: map<nat, Ref>,
                    ghost tree: Tree, ghost home: map<nat, L.Home>, ghost depth: map<nat, nat>)
    returns (r: Call, ghost tree': Tree)
    requires Sound(ic.fs) && FsVal(ic.fs.disk, ic.fs.mem, tree, home, depth) && AllHeld(refs)
    requires ic.Ok() && ic.Refs() == Plus(refs, dp, s) && InPlace(refs, dp, s) && ic.Locks() == {}
    requires dp in tree && dp < |ic.fs.mem| && ic.fs.mem[dp].kind != 0 && CString(name) && Trunc(name) == name
    requires dp in refs || ic.fs.mem[dp].nlink != 0
    modifies ic, ic.fs
    ensures !r.CallPanic? ==> Quiet(ic, refs, tree', home, depth)
    ensures r.CallFail? ==> ic.fs.disk == old(ic.fs.disk) && ic.fs.mem == old(ic.fs.mem) && tree' == tree
    ensures r.CallFail? ==> !Removable(old(ic.fs.disk), old(ic.fs.mem), tree, dp, name, InumOf(tree, dp, name))
    ensures r.CallDone? ==> Removable(old(ic.fs.disk), old(ic.fs.mem), tree, dp, name, InumOf(tree, dp, name))
    ensures r.CallDone? ==>
              UnlinkEffect(old(ic.fs.disk), old(ic.fs.mem), ic.fs.disk, ic.fs.mem, tree, tree', refs, dp, name)
    ensures r.CallPanic? ==> CacheFull(ic)
  {
    hide Sound, Indexed, RefsIn, LocksIn, Plus, Data, DirTree, L.LinkInv, DirsOf, DirIs, UnlinkEffect;
    tree' := tree;
    PlusHolds(refs, dp, s);
    var _ := ic.Ilock(s, dp);
    if name == DOT || name == DOTDOT {
      PutLocked(ic, s, dp, refs);
      return CallFail, tree;
    }
    assert IsDir(ic.fs, dp, tree[dp]) by { DirOfTree(ic.fs, tree, home, depth, dp); }
    var look, ip, off := Dirlookup(ic, dp, name, tree[dp]);
    if look.LookPanic? {
      return CallPanic, tree;
    }
    if look.LookNothing? {
      PutLocked(ic, s, dp, refs);
      return CallFail, tree;
    }
    if ic.fs.mem[dp].nlink == 0 { RemovedIsEmpty(ic.fs.disk, ic.fs.mem, tree, home, depth, dp, name); }
    EntryFacts(ic.fs.disk, ic.fs.mem, tree, home, depth, dp, name);
    InPlaceOther(refs, dp, s, ip, look.slot);
    r, tree' := UnlinkEntry(ic, s, dp, name, look.slot, ip, off, refs, tree, home, depth);
  }

  lemma InPlaceOther(refs: map<nat, Ref>, i: nat, s: nat, j: nat, t: nat)
    requires i != j && InPlace(Plus(refs, i, s), j, t)
    ensures InPlace(refs, j, t)
  {
  }

  lemma DirOfTree(fs: FileSys, tree: Tree, home: map<nat, L.Home>, depth: map<nat, nat>, d: nat)
    requires Sound(fs) && FsVal(fs.disk, fs.mem, tree, home, depth) && d in tree
    ensures IsDir(fs, d, tree[d])
  {
    hide Data, DirIs, L.LinkInv, Owns, AllMapped, AllTails, SyncedBut;
  }

  /** sys_unlink once both inodes are held: test, clear, lower the counts, let go. */
  method UnlinkEntry(ic: Icache, s: nat, dp: nat, name: Name, t: nat, ip: nat, off: nat, ghost refs: map<nat, Ref>,
                     ghost tree: Tree, ghost home: map<nat, L.Home>, ghost depth: map<nat, nat>)
    returns (r: Call, ghost tree': Tree)
    requires Sound(ic.fs) && FsVal(ic.fs.disk, ic.fs.mem, tree, home, depth) && AllHeld(refs)
    requires ic.Ok() && ic.Refs() == Plus(Plus(refs, dp, s), ip, t) && InPlace(refs, dp, s) && InPlace(refs, ip, t)
             && ic.Locks() == {dp}
    requires dp in tree && Known(ic.fs.mem, dp) && name != DOT && name != DOTDOT && name in tree[dp]
    requires tree[dp][name].inum == ip && off == DIRENT * tree[dp][name].at && ip != dp && Known(ic.fs.mem, ip)
             && ip != 0
    modifies ic, ic.fs
    ensures !r.CallPanic? && Quiet(ic, refs, tree', home, depth)
    ensures r.CallFail? ==> ic.fs.disk == old(ic.fs.disk) && ic.fs.mem == old(ic.fs.mem) && tree' == tree
    ensures r.CallFail? ==> !Removable(old(ic.fs.disk), old(ic.fs.mem), tree, dp, name, ip)
    ensures r.CallDone? ==> Removable(old(ic.fs.disk), old(ic.fs.mem), tree, dp, name, ip)
    ensures r.CallDone? ==>
              UnlinkEffect(old(ic.fs.disk), old(ic.fs.mem), ic.fs.disk, ic.fs.mem, tree, tree', refs, dp, name)
  {
    hide Owns, AllMapped, AllTails, SyncedBut, Indexed, RefsIn, LocksIn, Data, DirTree, L.LinkInv, DirsOf, DirIs,
         FilesOf, EntList, L.Empty;
    tree' := tree;
    KnownInUse(ic.fs.disk, ic.fs.mem, tree, home, depth, ip);
    var _ := ic.Ilock(t, ip);
    assert 1 <= ic.fs.mem[ip].nlink <= 0x7fff;        // "unlink: nlink < 1" is silent
    var isDir := ic.fs.mem[ip].kind == T_DIR;
    if isDir {
      DirInTree(ic.fs, tree, home, depth, ip);
      var empty := Isdirempty(ic.fs, ip, tree[ip]);
      if !empty {
        ic.Iunlock(t, ip);
        DropSecond(ic, s, dp, t, ip, refs);
        PutLocked(ic, s, dp, refs);
        return CallFail, tree;
      }
    }
    r := CallDone;
    tree' := UnlinkDone(ic, s, dp, name, t, ip, off, refs, tree, home, depth);
  }

  lemma DirInTree(fs: FileSys, tree: Tree, home: map<nat, L.Home>, depth: map<nat, nat>, d: nat)
    requires Sound(fs) && FsVal(fs.disk, fs.mem, tree, home, depth) && d < |fs.mem| && fs.mem[d].kind == T_DIR
    ensures d in tree && IsDir(fs, d, tree[d])
  {
    hide Data, DirIs, L.LinkInv, Owns, AllMapped, AllTails, SyncedBut;
  }

  /** iput of ip while dp is still held. */
  method DropSecond(ic: Icache, s: nat, dp: nat, t: nat, ip: nat, ghost refs: map<nat, Ref>)
    requires Sound(ic.fs) && ic.Ok() && ic.Refs() == Plus(Plus(refs, dp, s), ip, t) && InPlace(refs, dp, s)
             && InPlace(refs, ip, t)
    requires ic.Locks() == {dp} && ip != dp && ip < |ic.fs.mem| && ic.fs.mem[ip].nlink != 0
    modifies ic, ic.fs
    ensures ic.Ok() && ic.Refs() == Plus(refs, dp, s) && ic.Locks() == {dp}
    ensures Sound(ic.fs) && ic.fs.disk == old(ic.fs.disk) && ic.fs.mem == old(ic.fs.mem)
  {
    hide Sound, Indexed, LocksIn, Freed;
    PlusMinus(Plus(refs, dp, s), ip, t);
    ic.Iput(t, ip);
  }

  /** The part that changes things. */
  method UnlinkDone(ic: Icache, s: nat, dp: nat, name: Name, t: nat, ip: nat, off: nat, ghost refs: map<nat, Ref>,
                    ghost tree: Tree, ghost home: map<nat, L.Home>, ghost depth: map<nat, nat>)
    returns (ghost tree': Tree)
    requires Sound(ic.fs) && FsVal(ic.fs.disk, ic.fs.mem, tree, home, depth) && AllHeld(refs)
    requires ic.Ok() && ic.Refs() == Plus(Plus(refs, dp, s), ip, t) && InPlace(refs, dp, s) && InPlace(refs, ip, t)
             && ic.Locks() == {dp, ip}
    requires Removable(ic.fs.disk, ic.fs.mem, tree, dp, name, ip) && off == DIRENT * tree[dp][name].at
    requires ip != dp && Known(ic.fs.mem, ip) && ip != 0
    modifies ic, ic.fs
    ensures Quiet(ic, refs, tree', home, depth)
    ensures UnlinkEffect(old(ic.fs.disk), old(ic.fs.mem), ic.fs.disk, ic.fs.mem, tree, tree', refs, dp, name)
  {
    hide Sound, Indexed, RefsIn, LocksIn, Data, DirTree, L.LinkInv, DirsOf, FilesOf, EntList, L.Empty, Plus, OneLess,
         OnlyEntry, Put, UnlinkEffect;
    Unname(ic, s, dp, name, t, ip, off, refs, tree, home, depth);
    ghost var disk1, mem1 := ic.fs.disk, ic.fs.mem;
    tree' := LastPut(ic, t, ip, refs, WithoutName(tree, dp, name), home, depth);
    EffectIs(old(ic.fs.disk), old(ic.fs.mem), disk1, mem1, ic.fs.disk, ic.fs.mem, tree, tree', refs, dp, name, ip);
  }

  /** Both halves together. */
  lemma EffectIs(disk: seq<Block>, mem: seq<Inode>, disk1: seq<Block>, mem1: seq<Inode>, disk': seq<Block>,
                 mem': seq<Inode>, tree: Tree, tree': Tree, refs: map<nat, Ref>, dp: nat, name: Name, ip: nat)
    requires Removable(disk, mem, tree, dp, name, ip) && Known(mem, ip) && ip != dp
    requires OnlyEntry(disk, mem, OneLess(mem, dp, ip), disk1, mem1, dp, {dp})
    requires Put(disk1, mem1, disk', mem', WithoutName(tree, dp, name), tree', refs, ip)
    ensures UnlinkEffect(disk, mem, disk', mem', tree, tree', refs, dp, name)
  {
    hide Data, EntList, L.Empty, ZeroUpTo;
    if mem1[ip].nlink == 0 && ip !in refs {
      FreedDirs(disk1, mem1, disk', mem', ip);
    }
  }

  /** What the last iput of ip does. */
  ghost predicate Put(disk: seq<Block>, mem: seq<Inode>, disk': seq<Block>, mem': seq<Inode>, tree: Tree, tree': Tree,
                      refs: map<nat, Ref>, ip: nat)
  {
    && SizesOk(mem) && ip < |mem|
    && if mem[ip].nlink == 0 && ip !in refs
       then Freed(disk, mem, disk', mem', ip) && tree' == tree - {ip}
       else disk' == disk && mem' == mem && tree' == tree
  }

  /** Everything but the last iput. */
  method Unname(ic: Icache, s: nat, dp: nat, name: Name, t: nat, ip: nat, off: nat, ghost refs: map<nat, Ref>,
                ghost tree: Tree, ghost home: map<nat, L.Home>, ghost depth: map<nat, nat>)
    requires Sound(ic.fs) && FsVal(ic.fs.disk, ic.fs.mem, tree, home, depth) && AllHeld(refs)
    requires ic.Ok() && ic.Refs() == Plus(Plus(refs, dp, s), ip, t) && InPlace(refs, dp, s) && InPlace(refs, ip, t)
             && ic.Locks() == {dp, ip}
    requires Removable(ic.fs.disk, ic.fs.mem, tree, dp, name, ip) && off == DIRENT * tree[dp][name].at
    requires ip != dp && Known(ic.fs.mem, ip) && ip != 0
    modifies ic, ic.fs
    ensures ic.Ok() && ic.Refs() == Plus(refs, ip, t) && ic.Locks() == {} && Sound(ic.fs)
    ensures FsVal(ic.fs.disk, ic.fs.mem, WithoutName(tree, dp, name), home, depth) && |ic.fs.mem| == old(|ic.fs.mem|)
    ensures OnlyEntry(old(ic.fs.disk), old(ic.fs.mem), OneLess(old(ic.fs.mem), dp, ip), ic.fs.disk, ic.fs.mem, dp, {dp})
  {
    hide Owns, AllMapped, AllTails, SyncedBut, Indexed, RefsIn, LocksIn, Data, DirTree, L.LinkInv, DirsOf, DirIs,
         FilesOf, EntList, L.Empty, EntryWritten, Plus, OneLess;
    ghost var disk0, mem0 := ic.fs.disk, ic.fs.mem;
    DirOfTree(ic.fs, tree, home, depth, dp);
    ClearEntry(ic.fs, dp, off, name, tree[dp]);
    ghost var disk1, mem1 := ic.fs.disk, ic.fs.mem;
    assert Cleared1(disk0, mem0, disk1, mem1, tree, dp, name);
    LowerDir(ic.fs, dp, ip, disk0, mem0, tree, home, depth, name);
    LetGo(ic, s, dp, t, ip, refs);
    SetLinks(ic.fs, ip, ic.fs.mem[ip].nlink - 1);
    PlusHolds(refs, ip, t);
    ic.Iunlock(t, ip);
    UnlinkedVal(disk0, mem0, disk1, mem1, ic.fs.disk, ic.fs.mem, tree, home, depth, dp, name, ip);
  }

  /** `if(ip->type == T_DIR){ dp->nlink--; iupdate(dp); }`. */
  method LowerDir(fs: FileSys, dp: nat, ip: nat, ghost disk0: seq<Block>, ghost mem0: seq<Inode>,
                  ghost tree: Tree, ghost home: map<nat, L.Home>, ghost depth: map<nat, nat>, ghost name: Name)
    requires Sound(fs) && FsVal(disk0, mem0, tree, home, depth) && SameKinds(mem0, fs.mem, dp)
    requires Removable(disk0, mem0, tree, dp, name, ip) && Known(mem0, ip) && ip != dp
    modifies fs
    ensures Sound(fs) && SameBytes(old(fs.disk), old(fs.mem), fs.disk, fs.mem) && OnlyLinks(old(fs.mem), fs.mem)
            && |fs.mem| == |mem0|
    ensures Known(fs.mem, dp) && Known(fs.mem, ip)
            && SameLinks(OneLess(mem0, dp, ip), L.WithLinks(fs.mem, ip, fs.mem[ip].nlink - 1))
  {
    hide Owns, AllMapped, AllTails, SyncedBut, Data, DirTree, L.LinkInv, DirsOf, FilesOf, EntList, L.Empty, OneLess,
         SameLinks, OnlyLinks;
    ghost var mem1 := fs.mem;
    if fs.mem[ip].kind == T_DIR {
      TwoLinks(disk0, mem0, tree, home, depth, dp, name, ip);
      SetLinks(fs, dp, fs.mem[dp].nlink - 1);
    }
    Lowered(mem0, mem1, fs.mem, dp, ip);
  }

  lemma Lowered(mem0: seq<Inode>, mem1: seq<Inode>, mem2: seq<Inode>, dp: nat, ip: nat)
    requires SameKinds(mem0, mem1, dp) && ip < |mem0| && ip != dp && mem0[dp].nlink > 0 && mem0[ip].nlink > 0
    requires mem2 == if mem1[ip].kind == T_DIR then L.WithLinks(mem1, dp, mem1[dp].nlink - 1) else mem1
    ensures OnlyLinks(mem1, mem2) && SameLinks(OneLess(mem0, dp, ip), L.WithLinks(mem2, ip, mem2[ip].nlink - 1))
  {
  }

  lemma TwoLinks(disk: seq<Block>, mem: seq<Inode>, tree: Tree, home: map<nat, L.Home>, depth: map<nat, nat>, dp: nat,
                 name: Name, ip: nat)
    requires FsVal(disk, mem, tree, home, depth) && Removable(disk, mem, tree, dp, name, ip) && mem[ip].kind == T_DIR
             && Known(mem, ip)
    ensures mem[dp].nlink >= 2
  {
    hide Data, DirIs, L.LinkInv, EntList;
    EntryFacts(disk, mem, tree, home, depth, dp, name);
    var dirs := DirsOf(disk, mem);
    L.OnlyName(mem, dirs, home, depth, dp, tree[dp][name].at, ip);
    TwoEntries(mem, dirs, home, depth, ip);
    ParentTwo(mem, dirs, home, depth, dp, tree[dp][name].at, ip);
  }

  lemma TwoEntries(mem: seq<Inode>, dirs: L.Dirs, home: map<nat, L.Home>, depth: map<nat, nat>, d: nat)
    requires L.LinkInv(mem, dirs, home, depth) && d in dirs
    ensures |dirs[d]| >= 2
  {
    hide L.Counted, L.Rooted;
  }

  lemma ParentTwo(mem: seq<Inode>, dirs: L.Dirs, home: map<nat, L.Home>, depth: map<nat, nat>, dp: nat, at: nat,
                  ip: nat)
    requires L.LinkInv(mem, dirs, home, depth) && L.Names(mem, dirs, dp, at, ip) && ip in dirs && ip != ROOTINO
    requires L.Linked(mem, ip) && |dirs[ip]| >= 2 && dirs[ip][1] == dp
    ensures dp < |mem| && mem[dp].nlink >= 2
  {
    hide L.Shaped, L.Counted, L.Rooted;
    L.ParentHasTwo(mem, dirs, home, depth, dp, ip);
  }

  /** iunlockput(dp) while ip is still held and locked. */
  method LetGo(ic: Icache, s: nat, dp: nat, t: nat, ip: nat, ghost refs: map<nat, Ref>)
    requires Sound(ic.fs) && ic.Ok() && ic.Refs() == Plus(Plus(refs, dp, s), ip, t) && InPlace(refs, dp, s)
             && InPlace(refs, ip, t)
    requires ic.Locks() == {dp, ip} && ip != dp && Known(ic.fs.mem, dp)
    modifies ic, ic.fs
    ensures ic.Ok() && ic.Refs() == Plus(refs, ip, t) && ic.Locks() == {ip}
    ensures Sound(ic.fs) && ic.fs.disk == old(ic.fs.disk) && ic.fs.mem == old(ic.fs.mem)
  {
    hide Sound, Indexed, LocksIn, Freed;
    PlusPlusMinus(refs, dp, s, ip, t);
    ic.Iunlock(s, dp);
    ic.Iput(s, dp);
  }

  /** The last iput of sys_unlink. */
  method LastPut(ic: Icache, t: nat, ip: nat, ghost refs: map<nat, Ref>, ghost tree: Tree,
                 ghost home: map<nat, L.Home>, ghost depth: map<nat, nat>)
    returns (ghost tree': Tree)
    requires Sound(ic.fs) && FsVal(ic.fs.disk, ic.fs.mem, tree, home, depth) && AllHeld(refs) && 0 < ip < |ic.fs.mem|
    requires ic.Ok() && ic.Refs() == Plus(refs, ip, t) && InPlace(refs, ip, t) && ic.Locks() == {}
    modifies ic, ic.fs
    ensures Quiet(ic, refs, tree', home, depth)
    ensures Put(old(ic.fs.disk), old(ic.fs.mem), ic.fs.disk, ic.fs.mem, tree, tree', refs, ip)
  {
    hide Owns, AllMapped, AllTails, SyncedBut, Indexed, RefsIn, LocksIn, Data, DirTree, L.LinkInv, DirsOf, FilesOf;
    ghost var disk0, mem0 := ic.fs.disk, ic.fs.mem;
    PlusMinus(refs, ip, t);
    ic.Iput(t, ip);
    tree' := tree;
    if mem0[ip].nlink == 0 && ip !in refs {
      FreedVal(disk0, mem0, ic.fs.disk, ic.fs.mem, tree, home, depth, ip);
      tree' := tree - {ip};
    }
  }

  /** The state after an inode without links is freed: all that is kept. */
  lemma FreedVal(disk: seq<Block>, mem: seq<Inode>, disk': seq<Block>, mem': seq<Inode>, tree: Tree,
                 home: map<nat, L.Home>, depth: map<nat, nat>, ip: nat)
    requires FsVal(disk, mem, tree, home, depth) && 0 < ip < |mem| && mem[ip].nlink == 0
             && Freed(disk, mem, disk', mem', ip)
    ensures FsVal(disk', mem', tree - {ip}, home, depth)
  {
    hide Data, DirIs, L.LinkInv, EntList, DotsNamed;
    FreedDirs(disk, mem, disk', mem', ip);
    L.FreeKeeps(mem, DirsOf(disk, mem), home, depth, ip, mem'[ip]);
  }

  lemma FreedDirs(disk: seq<Block>, mem: seq<Inode>, disk': seq<Block>, mem': seq<Inode>, ip: nat)
    requires SizesOk(mem) && ip < |mem| && Freed(disk, mem, disk', mem', ip)
    ensures forall d | 0 <= d < |mem| && d != ip :: Data(disk', mem', d) == Data(disk, mem, d)
    ensures DirsOf(disk', mem') == DirsOf(disk, mem) - {ip}
  {
    hide Data, EntList, ZeroUpTo;
    var files, files' := FilesOf(disk, mem), FilesOf(disk', mem');
    forall d | 0 <= d < |mem| && d != ip
      ensures Data(disk', mem', d) == Data(disk, mem, d)
    {
      assert files'[d] == files[d];
    }
  }
}
