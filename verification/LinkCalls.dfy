/** sys_link (sysfile.c), with its error paths, on the file system, the inode cache and the directory
    tree. */
module LinkCalls {
  import opened Blocks
  import opened Bitmap
  import opened Ownership
  import opened Inodes
  import opened FileView
  import opened FileSystem
  import opened FileRuns
  import opened Directories
  import opened InodeCache
  import opened Paths
  import opened LinkState
  import L = Links

  datatype Call = CallPanic | CallFail | CallDone

  /** Between system calls: nothing is locked, the working directory is held, though it may have
      lost its links, and so is every inode in use that has none. */
  ghost predicate Ready(ic: Icache, cwdSlot: nat, cwd: nat, tree: Tree, home: map<nat, L.Home>, depth: map<nat, nat>)
    reads ic, ic.fs
  {
    && Sound(ic.fs) && FsVal(ic.fs.disk, ic.fs.mem, tree, home, depth)
    && ic.Ok() && ic.Locks() == {} && ic.Points(cwdSlot, cwd)
    && 0 < cwd < |ic.fs.mem| && OrphansHeld(ic.fs.mem, ic.Refs())
  }

  /** The directory the last name of a path is looked up in, 0 for none. */
  ghost function ParentOf(tree: Tree, cwd: nat, path: seq<byte>): nat
  {
    var d := Target(tree, StartOf(path, cwd), Components(path), true);
    if d.Some? then d.inum else 0
  }

  /** That directory, if there is one, has links. */
  ghost predicate ParentLinked(mem: seq<Inode>, tree: Tree, cwd: nat, path: seq<byte>)
  {
    Target(tree, StartOf(path, cwd), Components(path), true).Some? ==> Known(mem, ParentOf(tree, cwd, path))
  }

  /** One more link for i does not overflow its 16 bits. */
  ghost predicate CountFits(mem: seq<Inode>, i: nat)
  {
    i < |mem| ==> mem[i].nlink < 0x7fff
  }

  ghost function TargetOf(tree: Tree, cwd: nat, path: seq<byte>): Option
  {
    Target(tree, StartOf(path, cwd), Components(path), false)
  }

  /** The path gets stuck on a free inode, or ends at one. */
  ghost predicate LeadsToFree(mem: seq<Inode>, tree: Tree, cwd: nat, path: seq<byte>)
  {
    || Stuck(mem, tree, StartOf(path, cwd), Components(path), false)
    || var i := TargetOf(tree, cwd, path); i.Some? && i.inum < |mem| && mem[i.inum].kind == 0
  }

  /** The same for the directory a name is looked up in. */
  ghost predicate ParentStuck(mem: seq<Inode>, tree: Tree, cwd: nat, path: seq<byte>)
  {
    Stuck(mem, tree, StartOf(path, cwd), Components(path), true)
  }

  ghost function LastName(path: seq<byte>): Name
  {
    if Components(path) == [] then [] else Trunc(Components(path)[|Components(path)| - 1])
  }

  /** A new entry may not be possible: no block is free, or a directory is as long as a file can be. */
  ghost predicate NoEntry(fs: FileSys, mem: seq<Inode>)
    reads fs
  {
    || (DiskOk(fs.sb, fs.disk) && fs.Full())
    || exists d :: 0 <= d < |mem| && mem[d].kind == T_DIR && mem[d].size + DIRENT > MAXBYTES
  }

  /** The old path names something that is not a directory, and the new one a free name. */
  ghost predicate CanLink(mem: seq<Inode>, tree: Tree, cwd: nat, oldPath: seq<byte>, newPath: seq<byte>)
  {
    var i := TargetOf(tree, cwd, oldPath);
    && i.Some? && i.inum < |mem| && mem[i.inum].kind != T_DIR
    && NameFree(tree, cwd, newPath)
  }

  /** A new count for ip leaves files, directories and paths as they are. */
  lemma AfterCount(disk: seq<Block>, mem: seq<Inode>, disk': seq<Block>, tree: Tree, home: map<nat, L.Home>,
                   depth: map<nat, nat>, ip: nat, n: half)
    requires FsVal(disk, mem, tree, home, depth) && ip < |mem| && mem[ip].kind != 0 && mem[ip].kind != T_DIR && n != 0
    requires SizesOk(L.WithLinks(mem, ip, n)) && FilesOf(disk', L.WithLinks(mem, ip, n)) == FilesOf(disk, mem)
    ensures var mem' := L.WithLinks(mem, ip, n);
      && DirTree(disk', mem', tree) && DirsOf(disk', mem') == DirsOf(disk, mem)
      && TreeOf(disk', mem', tree) && Known(mem', ROOTINO)
  {
    hide Data, DirIs, DirsOf, L.LinkInv, DotsNamed;
    var mem' := L.WithLinks(mem, ip, n);
    ValTree(disk, mem, tree, home, depth);
    DirsAfterFields(disk, mem, disk', mem');
    forall d | d in tree && mem'[d].nlink != 0
      ensures NamesKnown(mem', tree, d)
    {
      assert NamesKnown(mem, tree, d);
    }
  }

  /** `ip->nlink = n; iupdate(ip)` on a locked inode. */
  method SetLinks(fs: FileSys, ip: nat, n: half)
    requires Sound(fs) && ip < |fs.mem|
    modifies fs
    ensures Sound(fs) && fs.mem == L.WithLinks(old(fs.mem), ip, n)
            && FilesOf(fs.disk, fs.mem) == old(FilesOf(fs.disk, fs.mem))
  {
    hide Owns, AllMapped, AllTails, SyncedBut, FilesOf, Data;
    SetFields(fs, ip, fs.mem[ip].(nlink := n));
  }

  /** The error exit of sys_link: the count goes back and the reference is dropped. */
  method Undo(ic: Icache, s: nat, ip: nat, ghost refs: map<nat, Ref>)
    requires Sound(ic.fs) && Extra(ic, refs, s, ip) && AllHeld(refs) && ic.fs.mem[ip].kind != 0
    requires ic.fs.mem[ip].nlink >= 1 && (ic.fs.mem[ip].nlink == 1 ==> ip in refs)
    modifies ic, ic.fs
    ensures ic.Ok() && ic.Refs() == refs && ic.Locks() == {}
    ensures Sound(ic.fs) && ic.fs.mem == L.WithLinks(old(ic.fs.mem), ip, old(ic.fs.mem[ip].nlink) - 1)
    ensures FilesOf(ic.fs.disk, ic.fs.mem) == old(FilesOf(ic.fs.disk, ic.fs.mem))
  {
    hide Owns, AllMapped, AllTails, SyncedBut, FilesOf, Data, Indexed, RefsIn, LocksIn, Plus;
    PlusHolds(refs, ip, s);
    var _ := ic.Ilock(s, ip);
    SetLinks(ic.fs, ip, ic.fs.mem[ip].nlink - 1);
    ic.Iunlock(s, ip);
    Drop(ic, s, ip, refs);
  }

  lemma PlusHolds(refs: map<nat, Ref>, i: nat, s: nat)
    ensures i in Plus(refs, i, s) && Plus(refs, i, s)[i].slot == s
  {
  }

  /** The second half of sys_link: the new name. */
  method LinkName(ic: Icache, ip: nat, newPath: seq<byte>, cwdSlot: nat, cwd: nat, ghost refs: map<nat, Ref>,
                  ghost tree: Tree)
    returns (r: Call, ghost dp: nat, ghost at: nat)
    requires TreeIs(ic.fs, tree) && CString(newPath) && ic.Ok() && ic.Locks() == {} && ic.Refs() == refs
    requires Known(ic.fs.mem, ROOTINO) && ic.Points(cwdSlot, cwd) && 0 < cwd < |ic.fs.mem| && 0 < ip < 0x1_0000
    requires OrphansHeld(ic.fs.mem, refs) && ParentLinked(ic.fs.mem, tree, cwd, newPath)
    modifies ic, ic.fs
    ensures !r.CallPanic? ==> ic.Ok() && ic.Refs() == refs && ic.Locks() == {} && Sound(ic.fs)
    ensures r.CallPanic? ==>
              CacheFull(ic) || NoEntry(ic.fs, old(ic.fs.mem)) || ParentStuck(old(ic.fs.mem), tree, cwd, newPath)
    ensures !r.CallPanic? ==> !ParentStuck(old(ic.fs.mem), tree, cwd, newPath)
    ensures r.CallFail? ==> ic.fs.disk == old(ic.fs.disk) && ic.fs.mem == old(ic.fs.mem)
    ensures r.CallFail? ==> !NameFree(tree, cwd, newPath)
    ensures r.CallDone? ==>
              NameFree(tree, cwd, newPath) && Target(tree, StartOf(newPath, cwd), Components(newPath), true) == Some(dp)
    ensures r.CallDone? ==>
              Named(old(ic.fs.disk), old(ic.fs.mem), ic.fs.disk, ic.fs.mem, tree, dp, LastName(newPath), ip, at)
  {
    hide Sound, Indexed, LocksIn, Plus, Minus, Data, TreeOf, Components, DirIs, FreeAt, EntryWritten, Target, FilesOf,
         OrphansHeld;
    dp, at := 0, 0;
    assert AllHeld(refs) by { RefsPositive(ic.slots, ic.at); }
    var found, name, d := Namex(ic, newPath, true, cwdSlot, cwd, tree);
    if found.FoundPanic? {
      return CallPanic, 0, 0;
    }
    if found.FoundNothing? {
      return CallFail, 0, 0;
    }
    TargetInRange(ic.fs.disk, ic.fs.mem, tree, StartOf(newPath, cwd), Components(newPath), true);
    TruncTwice(Components(newPath)[|Components(newPath)| - 1]);
    r, at := LinkIn(ic, found.slot, d, name, ip, refs, tree);
    dp := d;
  }

  /** The new entry is in place and the directory is the map with one name more. */
  ghost predicate Named(disk: seq<Block>, mem: seq<Inode>, disk': seq<Block>, mem': seq<Inode>, tree: Tree, dp: nat,
                        name: Name, ip: nat, at: nat)
  {
    && SizesOk(mem) && SizesOk(mem') && SameKinds(mem, mem', dp) && dp in tree && dp < |mem|
    && FreeAt(Data(disk, mem, dp), at) && EntryWritten(FilesOf(disk, mem), FilesOf(disk', mem'), dp, at, ip)
    && DirIs(Data(disk', mem', dp), tree[dp][name := Slot(ip, at)])
  }

  lemma NamesDroppable(ic: Icache, tree: Tree, dp: nat, name: Name)
    requires TreeIs(ic.fs, tree) && ic.Ok() && dp in tree && Known(ic.fs.mem, dp)
    ensures Droppable(ic, tree[dp], name)
  {
    hide Data, DirIs, Sound, Indexed, RefsIn;
    assert NamesKnown(ic.fs.mem, tree, dp);
  }

  lemma OkDisk(fs: FileSys)
    requires fs.Ok()
    ensures DiskOk(fs.sb, fs.disk)
  {
  }

  /** ilock(dp), dirlink, iunlockput(dp). */
  method LinkIn(ic: Icache, s: nat, dp: nat, name: Name, ip: nat, ghost refs: map<nat, Ref>, ghost tree: Tree)
    returns (r: Call, ghost at: nat)
    requires TreeIs(ic.fs, tree) && ic.Ok() && ic.Locks() == {} && ic.Refs() == Plus(refs, dp, s)
             && InPlace(refs, dp, s) && AllHeld(refs)
    requires CString(name) && Trunc(name) == name && 0 < ip < 0x1_0000 && dp in tree && Known(ic.fs.mem, dp)
    modifies ic, ic.fs
    ensures !r.CallPanic? ==> ic.Ok() && ic.Refs() == refs && ic.Locks() == {} && Sound(ic.fs)
    ensures r.CallPanic? ==> CacheFull(ic) || NoEntry(ic.fs, old(ic.fs.mem))
    ensures r.CallFail? ==> ic.fs.disk == old(ic.fs.disk) && ic.fs.mem == old(ic.fs.mem) && name in tree[dp]
    ensures r.CallDone? ==>
              name !in tree[dp] && Named(old(ic.fs.disk), old(ic.fs.mem), ic.fs.disk, ic.fs.mem, tree, dp, name, ip, at)
  {
    hide Owns, AllMapped, AllTails, SyncedBut, Indexed, RefsIn, LocksIn, Plus, Data, TreeOf, DirIs, FreeAt,
         EntryWritten, FilesOf, Trunc;
    TreeDir(ic.fs, tree, dp);
    PlusHolds(refs, dp, s);
    var _ := ic.Ilock(s, dp);
    var l;
    assert Droppable(ic, tree[dp], name) by { NamesDroppable(ic, tree, dp, name); }
    l, at := Dirlink(ic, dp, name, ip, tree[dp]);
    if l.LinkPanic? {
      OkDisk(ic.fs);
      assert CacheFull(ic) || ic.fs.Full() || old(ic.fs.mem)[dp].size + DIRENT > MAXBYTES;
      return CallPanic, 0;
    }
    ic.Iunlock(s, dp);
    Drop(ic, s, dp, refs);
    r := if l.LinkExists? then CallFail else CallDone;
  }

  /** ip, not a directory, has one link more than entries; all else is as it was. */
  ghost predicate Ahead(disk: seq<Block>, mem: seq<Inode>, disk1: seq<Block>, mem1: seq<Inode>, tree: Tree, ip: nat)
  {
    && SizesOk(mem) && SizesOk(mem1) && 0 < ip < |mem| && mem[ip].kind != 0 && mem[ip].kind != T_DIR
    && mem[ip].nlink < 0x7fff
    && mem1 == L.WithLinks(mem, ip, mem[ip].nlink + 1)
    && DirTree(disk1, mem1, tree) && DirsOf(disk1, mem1) == DirsOf(disk, mem)
  }

  ghost function WithName(tree: Tree, dp: nat, name: Name, ip: nat, at: nat): Tree
  {
    if dp in tree then tree[dp := tree[dp][name := Slot(ip, at)]] else tree
  }

  /** The state after a name for ip was added: all that is kept. */
  lemma LinkedVal(disk: seq<Block>, mem: seq<Inode>, disk1: seq<Block>, mem1: seq<Inode>, disk2: seq<Block>,
                  mem2: seq<Inode>, tree: Tree,
                  home: map<nat, L.Home>, depth: map<nat, nat>, ip: nat, dp: nat, name: Name, at: nat)
    requires FsVal(disk, mem, tree, home, depth) && Ahead(disk, mem, disk1, mem1, tree, ip)
    requires Named(disk1, mem1, disk2, mem2, tree, dp, name, ip, at)
    requires Known(mem, dp) && dp in tree && name !in tree[dp]
    ensures FsVal(disk2, mem2, WithName(tree, dp, name, ip, at), home, depth) && SameLinks(mem1, mem2)
  {
    hide Data, DirIs, DirsOf, L.LinkInv, FilesOf, EntryWritten;
    var m := tree[dp][name := Slot(ip, at)];
    var dirs := DirsOf(disk, mem);
    TreeAfterEntry(disk1, mem1, disk2, mem2, tree, dp, m, at, ip);
    DirsAfterEntry(disk1, mem1, disk2, mem2, dp, at, ip);
    FreeEntry(disk1, mem1, tree, dp, at);
    L.LinkKeeps(mem, dirs, home, depth, ip, dp, at);
    SameLinksInv(mem1, mem2, L.WithEntry(dirs, dp, at, ip), home, depth);
  }

  /** A free entry is not one of the first two. */
  lemma FreeEntry(disk: seq<Block>, mem: seq<Inode>, tree: Tree, dp: nat, at: nat)
    requires SizesOk(mem) && DirTree(disk, mem, tree) && dp in tree && FreeAt(Data(disk, mem, dp), at)
    ensures dp in DirsOf(disk, mem) && 2 <= at <= |DirsOf(disk, mem)[dp]|
    ensures at < |DirsOf(disk, mem)[dp]| ==> DirsOf(disk, mem)[dp][at] == 0
  {
    hide NameIn, InumIn, EntryAt, Data;
    EntryOf(disk, mem, tree, dp, DOT);
    EntryOf(disk, mem, tree, dp, DOTDOT);
  }

  ghost predicate SameBytes(disk: seq<Block>, mem: seq<Inode>, disk': seq<Block>, mem': seq<Inode>)
  {
    SizesOk(mem) && SizesOk(mem') && FilesOf(disk', mem') == FilesOf(disk, mem)
  }

  /** The new path names what the old one names, and that has one link more. Nothing else changes,
      save the directory that got the name. */
  ghost predicate LinkEffect(disk: seq<Block>, mem: seq<Inode>, disk': seq<Block>, mem': seq<Inode>, tree: Tree,
                             tree': Tree, cwd: nat, oldPath: seq<byte>, newPath: seq<byte>)
  {
    var i := TargetOf(tree, cwd, oldPath);
    && i.Some? && i.inum < |mem| && mem[i.inum].nlink < 0x7fff
    && OnlyEntry(disk, mem, L.WithLinks(mem, i.inum, mem[i.inum].nlink + 1), disk', mem',
                 ParentOf(tree, cwd, newPath), {ParentOf(tree, cwd, newPath)})
    && NameEffect(tree, tree', cwd, newPath, i.inum)
  }

  ghost predicate NameEffect(tree: Tree, tree': Tree, cwd: nat, newPath: seq<byte>, ip: nat)
  {
    var d := Target(tree, StartOf(newPath, cwd), Components(newPath), true);
    d.Some? && d.inum in tree && LastName(newPath) !in tree[d.inum]
    && exists at :: tree' == WithName(tree, d.inum, LastName(newPath), ip, at)
  }

  ghost predicate NameFree(tree: Tree, cwd: nat, newPath: seq<byte>)
  {
    var d := Target(tree, StartOf(newPath, cwd), Components(newPath), true);
    d.Some? && d.inum in tree && LastName(newPath) !in tree[d.inum]
  }

  /** sys_link: if the old path leads to something that is not a directory and the new one to a free
      name in a directory, the name is there afterwards and the count is one more; otherwise the call
      fails and all is as before. The counts and the tree stay right, and no lock or reference is
      left behind. A panic means no slot in the inode cache, a full disk or a full directory, or a
      path from a removed directory that leads to a free inode. */
  method SysLink(ic: Icache, oldPath: seq<byte>, newPath: seq<byte>, cwdSlot: nat, cwd: nat,
                 ghost tree: Tree, ghost home: map<nat, L.Home>, ghost depth: map<nat, nat>)
    returns (r: Call, ghost tree': Tree)
    requires Ready(ic, cwdSlot, cwd, tree, home, depth) && CString(oldPath) && CString(newPath)
    requires ParentLinked(ic.fs.mem, tree, cwd, newPath)
    requires TargetOf(tree, cwd, oldPath).Some? ==> CountFits(ic.fs.mem, TargetOf(tree, cwd, oldPath).inum)
    modifies ic, ic.fs
    ensures !r.CallPanic? ==> Ready(ic, cwdSlot, cwd, tree', home, depth) && ic.Refs() == old(ic.Refs())
    ensures r.CallPanic? ==>
              || CacheFull(ic) || NoEntry(ic.fs, old(ic.fs.mem))
              || LeadsToFree(old(ic.fs.mem), tree, cwd, oldPath) || ParentStuck(old(ic.fs.mem), tree, cwd, newPath)
    ensures !r.CallPanic? ==> !LeadsToFree(old(ic.fs.mem), tree, cwd, oldPath)
    ensures r.CallFail? ==> !CanLink(old(ic.fs.mem), tree, cwd, oldPath, newPath) && tree' == tree
    ensures r.CallFail? ==>
              ic.fs.mem == old(ic.fs.mem) && SameBytes(old(ic.fs.disk), old(ic.fs.mem), ic.fs.disk, ic.fs.mem)
    ensures r.CallDone? ==> CanLink(old(ic.fs.mem), tree, cwd, oldPath, newPath)
    ensures r.CallDone? ==>
              LinkEffect(old(ic.fs.disk), old(ic.fs.mem), ic.fs.disk, ic.fs.mem, tree, tree', cwd, oldPath, newPath)
  {
    hide Sound, Indexed, RefsIn, LocksIn, Plus, Data, TreeOf, DirTree, L.LinkInv, DirsOf, FilesOf, Named, Target,
         Components, Stuck, OnlyEntry, OrphansHeld;
    tree' := tree;
    ghost var refs, disk0, mem0 := ic.Refs(), ic.fs.disk, ic.fs.mem;
    ValTree(ic.fs.disk, ic.fs.mem, tree, home, depth);
    var found, _, ip := Namex(ic, oldPath, false, cwdSlot, cwd, tree);
    if found.FoundPanic? {
      return CallPanic, tree;
    }
    if found.FoundNothing? {
      return CallFail, tree;
    }
    var s := found.slot;
    TargetInRange(ic.fs.disk, ic.fs.mem, tree, StartOf(oldPath, cwd), Components(oldPath), false);
    assert AllHeld(refs) by { RefsPositive(old(ic.slots), old(ic.at)); }
    HeldOrLinked(ic.fs.mem, refs, ip);
    PlusHolds(refs, ip, s);
    var locked := ic.Ilock(s, ip);
    if !locked {
      return CallPanic, tree;
    }
    if ic.fs.mem[ip].kind == T_DIR {
      ic.Iunlock(s, ip);
      Drop(ic, s, ip, refs);
      return CallFail, tree;
    }
    SetLinks(ic.fs, ip, ic.fs.mem[ip].nlink + 1);
    ic.Iunlock(s, ip);
    r, tree' := LinkRest(ic, s, ip, newPath, cwdSlot, cwd, refs, tree, home, depth, disk0, mem0);
  }

  lemma HeldOrLinked(mem: seq<Inode>, refs: map<nat, Ref>, i: nat)
    requires OrphansHeld(mem, refs) && i < |mem|
    ensures mem[i].kind == 0 || mem[i].nlink != 0 || i in refs
  {
  }

  /** From a working directory with links, or along an absolute path, nothing of the sort happens. */
  lemma LinkedStart(disk: seq<Block>, mem: seq<Inode>, tree: Tree, home: map<nat, L.Home>, depth: map<nat, nat>,
                    cwd: nat, path: seq<byte>)
    requires FsVal(disk, mem, tree, home, depth) && cwd != 0 && Known(mem, StartOf(path, cwd))
    ensures ParentLinked(mem, tree, cwd, path) && !ParentStuck(mem, tree, cwd, path)
            && !LeadsToFree(mem, tree, cwd, path)
  {
    hide FsVal, TreeOf, Target, Stuck;
    ValTree(disk, mem, tree, home, depth);
    var i, parts := StartOf(path, cwd), Components(path);
    TargetLinked(disk, mem, tree, i, parts, true);
    TargetLinked(disk, mem, tree, i, parts, false);
    NeverStuck(disk, mem, tree, i, parts, true);
    NeverStuck(disk, mem, tree, i, parts, false);
    assert TargetOf(tree, cwd, path).Some? ==> mem[TargetOf(tree, cwd, path).inum].kind != 0 by {
      UsedByTree(disk, mem, tree);
    }
  }

  lemma UsedByTree(disk: seq<Block>, mem: seq<Inode>, tree: Tree)
    requires TreeOf(disk, mem, tree)
    ensures forall i | 0 <= i < |mem| && mem[i].nlink != 0 :: mem[i].kind != 0
  {
    hide Data, DirIs;
  }

  /** sys_link from nameiparent on, with its two ways out. */
  method LinkRest(ic: Icache, s: nat, ip: nat, newPath: seq<byte>, cwdSlot: nat, cwd: nat, ghost refs: map<nat, Ref>,
                  ghost tree: Tree, ghost home: map<nat, L.Home>, ghost depth: map<nat, nat>,
                  ghost disk0: seq<Block>, ghost mem0: seq<Inode>)
    returns (r: Call, ghost tree': Tree)
    requires Sound(ic.fs) && FsVal(disk0, mem0, tree, home, depth) && CString(newPath) && AllHeld(refs)
    requires 0 < ip < |mem0| && mem0[ip].kind != 0 && mem0[ip].kind != T_DIR && mem0[ip].nlink < 0x7fff
    requires OrphansHeld(mem0, refs) && ParentLinked(mem0, tree, cwd, newPath)
    requires ic.fs.mem == L.WithLinks(mem0, ip, mem0[ip].nlink + 1) && SameBytes(disk0, mem0, ic.fs.disk, ic.fs.mem)
    requires Extra(ic, refs, s, ip) && cwd in refs && refs[cwd].slot == cwdSlot && 0 < cwd < |mem0|
    modifies ic, ic.fs
    ensures !r.CallPanic? ==> ic.Ok() && ic.Refs() == refs && ic.Locks() == {} && Sound(ic.fs)
    ensures !r.CallPanic? ==> FsVal(ic.fs.disk, ic.fs.mem, tree', home, depth)
    ensures !r.CallPanic? ==> |ic.fs.mem| == |mem0| && OrphansHeld(ic.fs.mem, refs)
    ensures r.CallPanic? ==> CacheFull(ic) || NoEntry(ic.fs, mem0) || ParentStuck(mem0, tree, cwd, newPath)
    ensures r.CallFail? ==>
              !NameFree(tree, cwd, newPath) && tree' == tree && ic.fs.mem == mem0
              && SameBytes(disk0, mem0, ic.fs.disk, ic.fs.mem)
    ensures r.CallDone? ==> NameEffect(tree, tree', cwd, newPath, ip)
    ensures r.CallDone? ==> var dp := ParentOf(tree, cwd, newPath);
      OnlyEntry(disk0, mem0, old(ic.fs.mem), ic.fs.disk, ic.fs.mem, dp, {dp})
  {
    hide Owns, AllMapped, AllTails, SyncedBut, Indexed, RefsIn, LocksIn, Data, TreeOf, DirTree, L.LinkInv, DirsOf,
         FilesOf, Named, Target, Components, LastName;
    tree' := tree;
    ghost var disk1, mem1 := ic.fs.disk, ic.fs.mem;
    AfterCount(disk0, mem0, disk1, tree, home, depth, ip, mem0[ip].nlink + 1);
    SameStuck(mem0, mem1, tree, StartOf(newPath, cwd), Components(newPath), true);
    ghost var dp, at;
    r, dp, at := LinkName(ic, ip, newPath, cwdSlot, cwd, ic.Refs(), tree);
    if r.CallPanic? {
      return;
    }
    if r.CallFail? {
      Undo(ic, s, ip, refs);
      assert ic.fs.mem == mem0;
      BackVal(disk0, mem0, ic.fs.disk, tree, home, depth);
      return;
    }
    DoneVal(disk0, mem0, disk1, mem1, ic.fs.disk, ic.fs.mem, tree, home, depth, ip, dp, newPath, at, cwd);
    tree' := WithName(tree, dp, LastName(newPath), ip, at);
    Drop(ic, s, ip, refs);
  }

  lemma BackVal(disk: seq<Block>, mem: seq<Inode>, disk': seq<Block>, tree: Tree, home: map<nat, L.Home>,
                depth: map<nat, nat>)
    requires FsVal(disk, mem, tree, home, depth) && FilesOf(disk', mem) == FilesOf(disk, mem)
    ensures FsVal(disk', mem, tree, home, depth)
  {
    hide Data, DirIs, L.LinkInv;
    DirsAfterFields(disk, mem, disk', mem);
  }

  lemma DoneVal(disk: seq<Block>, mem: seq<Inode>, disk1: seq<Block>, mem1: seq<Inode>, disk2: seq<Block>,
                mem2: seq<Inode>, tree: Tree,
                home: map<nat, L.Home>, depth: map<nat, nat>, ip: nat, dp: nat, path: seq<byte>, at: nat, cwd: nat)
    requires FsVal(disk, mem, tree, home, depth) && Ahead(disk, mem, disk1, mem1, tree, ip)
    requires Named(disk1, mem1, disk2, mem2, tree, dp, LastName(path), ip, at)
    requires 0 < cwd < |mem| && NameFree(tree, cwd, path)
             && Target(tree, StartOf(path, cwd), Components(path), true) == Some(dp)
    requires Known(mem, dp) && FilesOf(disk1, mem1) == FilesOf(disk, mem)
    ensures FsVal(disk2, mem2, WithName(tree, dp, LastName(path), ip, at), home, depth)
    ensures NameEffect(tree, WithName(tree, dp, LastName(path), ip, at), cwd, path, ip)
    ensures OnlyEntry(disk, mem, mem1, disk2, mem2, dp, {dp}) && ip < |mem2| && mem2[ip].nlink != 0
  {
    hide Data, DirIs, L.LinkInv, DirsOf, DirTree, FilesOf, EntryWritten, LastName, Components, Target;
    ValTree(disk, mem, tree, home, depth);
    TargetInRange(disk, mem, tree, StartOf(path, cwd), Components(path), true);
    LinkedVal(disk, mem, disk1, mem1, disk2, mem2, tree, home, depth, ip, dp, LastName(path), at);
    OthersSameBytes(disk1, mem1, disk2, mem2, dp, at, ip);
    BytesSame(disk, mem, disk1, mem1);
  }
}
