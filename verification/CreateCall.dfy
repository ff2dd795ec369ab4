/** create (sysfile.c): the inode a path names, made if it does not exist, returned locked and
    referenced. */
module CreateCall {
  import opened Blocks
  import opened Bitmap
  import opened Ownership
  import opened Inodes
  import opened FileView
  import opened FileSystem
  import opened FileRuns
  import opened Directories
  import opened InodeCache
  import opened Paths
  import opened LinkState
  import opened LinkCalls
  import opened UnlinkCall
  import L = Links

  /** The state of module Links that goes with the disk. */
  datatype Shape = Shape(tree: Tree, home: map<nat, L.Home>, depth: map<nat, nat>)

  ghost predicate Val(disk: seq<Block>, mem: seq<Inode>, g: Shape)
  {
    FsVal(disk, mem, g.tree, g.home, g.depth)
  }

  datatype Created = CreatePanic | CreateFail | CreateFound(slot: nat) | CreateNew(slot: nat)

  // ---------------------------------------------------------------- a new inode

  ghost function NewInode(ip: Inode, kind: half, major: half, minor: half): Inode
  {
    ip.(kind := kind, major := major, minor := minor, nlink := 1)
  }

  /** ialloc, then the fields that create sets: the lowest free inode, with one link. */
  method MakeInode(fs: FileSys, kind: half, major: half, minor: half) returns (ok: bool, ip: nat)
    requires Sound(fs) && FreeClean(fs.mem)
    modifies fs
    ensures !ok ==> forall i | 1 <= i < |fs.mem| :: fs.mem[i].kind != 0
    ensures !ok ==> fs.disk == old(fs.disk) && fs.mem == old(fs.mem)
    ensures ok ==>
              1 <= ip < |old(fs.mem)| && old(fs.mem)[ip].kind == 0 && forall i | 1 <= i < ip :: old(fs.mem)[i].kind != 0
    ensures ok ==> Sound(fs) && fs.mem == old(fs.mem)[ip := NewInode(old(fs.mem)[ip], kind, major, minor)]
    ensures ok ==> SameBytes(old(fs.disk), old(fs.mem), fs.disk, fs.mem)
  {
    hide Owns, AllMapped, AllTails, SyncedBut, FilesOf, Data;
    ip := 1;
    while ip < |fs.mem|
      invariant 1 <= ip && fs.disk == old(fs.disk) && fs.mem == old(fs.mem) && Sound(fs)
      invariant forall i | 1 <= i < ip && i < |fs.mem| :: fs.mem[i].kind != 0
    {
      if fs.mem[ip].kind == 0 {
        SetFields(fs, ip, fs.mem[ip].(kind := kind, major := 0, minor := 0, nlink := 0));
        SetFields(fs, ip, fs.mem[ip].(major := major, minor := minor, nlink := 1));
        return true, ip;
      }
      ip := ip + 1;
    }
    ok := false;
  }

  // ---------------------------------------------------------------- a new file

  /** A fresh inode with one link and no name yet; all else is as it was. */
  ghost predicate Fresh(disk: seq<Block>, mem: seq<Inode>, disk1: seq<Block>, mem1: seq<Inode>, ip: nat, ino: Inode)
  {
    && SameBytes(disk, mem, disk1, mem1) && 1 <= ip < |mem| && mem[ip].kind == 0
    && ino == NewInode(mem[ip], ino.kind, ino.major, ino.minor) && mem1 == mem[ip := ino]
  }

  /** The fresh inode is not a directory: the directories are as they were. */
  lemma FreshFile(disk: seq<Block>, mem: seq<Inode>, disk1: seq<Block>, mem1: seq<Inode>, g: Shape, ip: nat, ino: Inode)
    requires Val(disk, mem, g) && Fresh(disk, mem, disk1, mem1, ip, ino) && ino.kind != 0 && ino.kind != T_DIR
    ensures DirTree(disk1, mem1, g.tree) && DirsOf(disk1, mem1) == DirsOf(disk, mem) && FreeClean(mem1)
  {
    hide Data, DirIs, EntList, L.LinkInv;
    var files, files1 := FilesOf(disk, mem), FilesOf(disk1, mem1);
    forall d | 0 <= d < |mem|
      ensures Data(disk1, mem1, d) == Data(disk, mem, d)
    {
      assert files1[d] == files[d];
    }
  }

  /** The state after a fresh file got its name. */
  lemma FileVal(disk: seq<Block>, mem: seq<Inode>, disk1: seq<Block>, mem1: seq<Inode>, disk2: seq<Block>,
                mem2: seq<Inode>, g: Shape, ip: nat, ino: Inode, dp: nat, name: Name, at: nat)
    requires Val(disk, mem, g) && Fresh(disk, mem, disk1, mem1, ip, ino) && ino.kind != 0 && ino.kind != T_DIR
    requires Known(mem, dp) && dp in g.tree && name !in g.tree[dp]
    requires Named(disk1, mem1, disk2, mem2, g.tree, dp, name, ip, at)
    ensures Val(disk2, mem2, g.(tree := WithName(g.tree, dp, name, ip, at)))
    ensures dp != ip && IsNew(disk, mem, disk2, mem2, ip, ino.kind, ino.major, ino.minor, dp)
  {
    hide Data, DirIs, DirsOf, L.LinkInv, FilesOf, EntryWritten;
    FreshFile(disk, mem, disk1, mem1, g, ip, ino);
    var m, dirs := g.tree[dp][name := Slot(ip, at)], DirsOf(disk, mem);
    TreeAfterEntry(disk1, mem1, disk2, mem2, g.tree, dp, m, at, ip);
    DirsAfterEntry(disk1, mem1, disk2, mem2, dp, at, ip);
    FreeEntry(disk1, mem1, g.tree, dp, at);
    L.CreateFileKeeps(mem, dirs, g.home, g.depth, ip, mem1[ip], dp, at);
    SameLinksInv(mem1, mem2, L.WithEntry(dirs, dp, at, ip), g.home, g.depth);
    FreshFacts(disk, mem, disk1, mem1, ip, ino, dp, g);
    BytesSame(disk, mem, disk1, mem1);
    OthersSameBytes(disk1, mem1, disk2, mem2, dp, at, ip);
    NoBytes(disk2, mem2, ip);
  }

  // ---------------------------------------------------------------- a new directory

  ghost function Dotted(ip: nat, dp: nat): map<Name, Slot>
  {
    map[DOT := Slot(ip, 0)][DOTDOT := Slot(dp, 1)]
  }

  /** A new directory holds its two dots and has no name yet; its parent has one link more. */
  ghost predicate Rooming(disk: seq<Block>, mem: seq<Inode>, disk1: seq<Block>, mem1: seq<Inode>, tree: Tree, ip: nat,
                          ino: Inode, dp: nat)
  {
    && SizesOk(mem) && SizesOk(mem1) && |mem1| == |mem| && 1 <= ip < |mem| && mem[ip].kind == 0 && dp in tree
    && Known(mem, dp) && mem[dp].nlink < 0x7fff
    && ino.kind == T_DIR && ino.nlink == 1 && mem1[ip] == ino.(size := mem1[ip].size, addrs := mem1[ip].addrs)
    && mem1 == L.WithLinks(mem, dp, mem[dp].nlink + 1)[ip := mem1[ip]]
    && FreeClean(mem1)
    && (forall d | 0 <= d < |mem| && d != ip :: Data(disk1, mem1, d) == Data(disk, mem, d))
    && DirIs(Data(disk1, mem1, ip), Dotted(ip, dp)) && EntList(Data(disk1, mem1, ip)) == [ip, dp]
  }

  lemma DottedNames(ip: nat, dp: nat)
    ensures DotsNamed(Dotted(ip, dp))
  {
    assert |DOT| == 1 && |DOTDOT| == 2;
  }

  lemma RoomingDirs(disk: seq<Block>, mem: seq<Inode>, disk1: seq<Block>, mem1: seq<Inode>, g: Shape, ip: nat,
                    ino: Inode, dp: nat)
    requires Val(disk, mem, g) && Rooming(disk, mem, disk1, mem1, g.tree, ip, ino, dp)
    ensures DirTree(disk1, mem1, g.tree[ip := Dotted(ip, dp)])
    ensures DirsOf(disk1, mem1) == DirsOf(disk, mem)[ip := [ip, dp]] && ip !in DirsOf(disk, mem)
            && dp in DirsOf(disk, mem) && dp != ip
  {
    hide Data, DirIs, EntList, L.Counted, L.Rooted, DotsNamed, Dotted;
    DottedNames(ip, dp);
    var tree1 := g.tree[ip := Dotted(ip, dp)];
    assert forall d | d in g.tree :: d != ip && g.tree[d] == tree1[d];
  }

  lemma SameMade(dirs: L.Dirs, ip: nat, dp: nat, at: nat)
    requires dp in dirs && at <= |dirs[dp]| && ip !in dirs
    ensures L.WithEntry(dirs[ip := [ip, dp]], dp, at, ip) == L.Made(dirs, ip, dp, at)
  {
  }

  /** The state after a new directory got its name. */
  lemma DirVal(disk: seq<Block>, mem: seq<Inode>, disk1: seq<Block>, mem1: seq<Inode>, disk2: seq<Block>,
               mem2: seq<Inode>, g: Shape, ip: nat, ino: Inode, dp: nat, name: Name, at: nat)
    requires Val(disk, mem, g) && Rooming(disk, mem, disk1, mem1, g.tree, ip, ino, dp) && dp != ip
    requires name !in g.tree[dp]
    requires Named(disk1, mem1, disk2, mem2, g.tree[ip := Dotted(ip, dp)], dp, name, ip, at)
    ensures dp in g.depth
    ensures Val(disk2, mem2,
                Shape(WithName(g.tree[ip := Dotted(ip, dp)], dp, name, ip, at), g.home[ip := L.Home(dp, at)],
                      g.depth[ip := g.depth[dp] + 1]))
    ensures IsNew(disk, mem, disk2, mem2, ip, ino.kind, ino.major, ino.minor, dp)
  {
    hide Data, DirIs, DirsOf, L.LinkInv, FilesOf, EntryWritten, Dotted, EntList;
    RoomingDirs(disk, mem, disk1, mem1, g, ip, ino, dp);
    var tree1 := g.tree[ip := Dotted(ip, dp)];
    var m, dirs := tree1[dp][name := Slot(ip, at)], DirsOf(disk, mem);
    TreeAfterEntry(disk1, mem1, disk2, mem2, tree1, dp, m, at, ip);
    DirsAfterEntry(disk1, mem1, disk2, mem2, dp, at, ip);
    FreeEntry(disk1, mem1, tree1, dp, at);
    L.CreateDirKeeps(mem, dirs, g.home, g.depth, ip, mem1[ip], dp, at);
    var home2, depth2 := g.home[ip := L.Home(dp, at)], g.depth[ip := g.depth[dp] + 1];
    SameMade(dirs, ip, dp, at);
    SameLinksInv(L.WithLinks(mem, dp, mem[dp].nlink + 1)[ip := mem1[ip]], mem2, L.Made(dirs, ip, dp, at), home2,
                 depth2);
    OthersSameBytes(disk1, mem1, disk2, mem2, dp, at, ip);
  }

  /** dirlink of "." and "..", into a directory without entries. */
  method AddDots(ic: Icache, ip: nat, dp: nat) returns (ok: bool)
    requires Sound(ic.fs) && ic.Ok() && ip < |ic.fs.mem| && ic.fs.mem[ip].kind == T_DIR && ic.fs.mem[ip].size == 0
             && 0 < ip < 0x1_0000
             && 0 < dp < 0x1_0000
    modifies ic, ic.fs
    ensures ic.slots == old(ic.slots) && ic.at == old(ic.at)
    ensures !ok ==> DiskOk(ic.fs.sb, ic.fs.disk) && ic.fs.Full()
    ensures ok ==> Sound(ic.fs) && SameKinds(old(ic.fs.mem), ic.fs.mem, ip)
    ensures ok ==>
              forall d | 0 <= d < |ic.fs.mem| && d != ip ::
                Data(ic.fs.disk, ic.fs.mem, d) == Data(old(ic.fs.disk), old(ic.fs.mem), d)
    ensures ok ==>
              DirIs(Data(ic.fs.disk, ic.fs.mem, ip), Dotted(ip, dp))
              && EntList(Data(ic.fs.disk, ic.fs.mem, ip)) == [ip, dp]
  {
    hide Owns, AllMapped, AllTails, SyncedBut, Data, DirIs, FilesOf, EntryWritten, EntList, FreeAt;
    ghost var disk0, mem0 := ic.fs.disk, ic.fs.mem;
    EmptyDir(ic.fs.disk, ic.fs.mem, ip);
    ok := false;
    var r, at := Dirlink(ic, ip, DOT, ip, map[]);
    OkDisk(ic.fs);
    if !r.LinkDone? { return; }
    ghost var disk1, mem1 := ic.fs.disk, ic.fs.mem;
    FirstDot(disk0, mem0, disk1, mem1, ip, at);
    OneEntry(disk1, mem1, ip, map[DOT := Slot(ip, 0)]);
    r, at := Dirlink(ic, ip, DOTDOT, dp, map[DOT := Slot(ip, 0)]);
    DotsDiffer();
    assert !r.LinkExists?;
    OkDisk(ic.fs);
    if !r.LinkDone? { return; }
    SecondDot(disk0, mem0, disk1, mem1, ic.fs.disk, ic.fs.mem, ip, dp, at);
    ok := true;
  }

  lemma DotsDiffer()
    ensures Trunc(DOT) == DOT && Trunc(DOTDOT) == DOTDOT && DOT != DOTDOT && CString(DOT) && CString(DOTDOT)
  {
    assert |DOT| != |DOTDOT|;
  }

  lemma EmptyDir(disk: seq<Block>, mem: seq<Inode>, ip: nat)
    requires ip < |mem| && mem[ip].size == 0
    ensures DirIs(Data(disk, mem, ip), map[]) && EntList(Data(disk, mem, ip)) == []
  {
  }

  lemma OneEntry(disk: seq<Block>, mem: seq<Inode>, ip: nat, m: map<Name, Slot>)
    requires ip < |mem| && mem[ip].size <= MAXBYTES && DirIs(Data(disk, mem, ip), m)
             && |EntList(Data(disk, mem, ip))| == 1
    ensures mem[ip].size == DIRENT
  {
  }

  /** Where a written entry goes in the list. */
  lemma WrittenEnts(disk: seq<Block>, mem: seq<Inode>, disk': seq<Block>, mem': seq<Inode>, ip: nat, at: nat, inum: nat)
    requires SizesOk(mem) && SizesOk(mem') && SameKinds(mem, mem', ip) && FreeAt(Data(disk, mem, ip), at)
    requires EntryWritten(FilesOf(disk, mem), FilesOf(disk', mem'), ip, at, inum)
    ensures var was := EntList(Data(disk, mem, ip));
      && at <= |was| && (at < |was| ==> was[at] == 0)
      && EntList(Data(disk', mem', ip)) == (if at < |was| then was[at := inum] else was + [inum])
    ensures forall d | 0 <= d < |mem| && d != ip :: Data(disk', mem', d) == Data(disk, mem, d)
  {
    hide Data, Ents, InumIn, EntryAt, Spliced;
    var files, files' := FilesOf(disk, mem), FilesOf(disk', mem');
    var de: seq<byte> :| |de| == DIRENT && InumIn(de) == inum && ip < |files| && DIRENT * at <= |files[ip]|
                         && files' == files[ip := Spliced(files[ip], DIRENT * at, de)];
    SplicedEnts(files[ip], at, de);
    assert Data(disk', mem', ip) == files'[ip];
    forall d | 0 <= d < |mem| && d != ip
      ensures Data(disk', mem', d) == Data(disk, mem, d)
    {
      assert files'[d] == files[d];
    }
  }

  lemma FirstDot(disk: seq<Block>, mem: seq<Inode>, disk1: seq<Block>, mem1: seq<Inode>, ip: nat, at: nat)
    requires SizesOk(mem) && SizesOk(mem1) && SameKinds(mem, mem1, ip) && FreeAt(Data(disk, mem, ip), at)
    requires EntryWritten(FilesOf(disk, mem), FilesOf(disk1, mem1), ip, at, ip) && EntList(Data(disk, mem, ip)) == []
    ensures at == 0 && EntList(Data(disk1, mem1, ip)) == [ip]
    ensures forall d | 0 <= d < |mem| && d != ip :: Data(disk1, mem1, d) == Data(disk, mem, d)
  {
    hide Data, EntList, FreeAt, EntryWritten, FilesOf;
    WrittenEnts(disk, mem, disk1, mem1, ip, at, ip);
  }

  lemma SecondDot(disk: seq<Block>, mem: seq<Inode>, disk1: seq<Block>, mem1: seq<Inode>, disk2: seq<Block>,
                  mem2: seq<Inode>, ip: nat, dp: nat, at: nat)
    requires SizesOk(mem) && SizesOk(mem1) && SizesOk(mem2) && SameKinds(mem, mem1, ip) && SameKinds(mem1, mem2, ip)
             && ip != 0
    requires FreeAt(Data(disk1, mem1, ip), at) && EntryWritten(FilesOf(disk1, mem1), FilesOf(disk2, mem2), ip, at, dp)
    requires EntList(Data(disk1, mem1, ip)) == [ip]
    requires forall d | 0 <= d < |mem| && d != ip :: Data(disk1, mem1, d) == Data(disk, mem, d)
    ensures at == 1 && EntList(Data(disk2, mem2, ip)) == [ip, dp] && SameKinds(mem, mem2, ip)
    ensures forall d | 0 <= d < |mem| && d != ip :: Data(disk2, mem2, d) == Data(disk, mem, d)
    ensures map[DOT := Slot(ip, 0)][DOTDOT := Slot(dp, at)] == Dotted(ip, dp)
  {
    hide Data, EntList, FreeAt, EntryWritten, FilesOf;
    WrittenEnts(disk1, mem1, disk2, mem2, ip, at, dp);
    assert [ip] + [dp] == [ip, dp];
  }

  /** The directory half of create: one link more for the parent, and the dots. */
  method MakeRoom(ic: Icache, ip: nat, dp: nat, ghost ino: Inode, ghost disk0: seq<Block>, ghost mem0: seq<Inode>,
                  ghost g: Shape)
    returns (ok: bool)
    requires Sound(ic.fs) && ic.Ok() && Val(disk0, mem0, g) && Fresh(disk0, mem0, ic.fs.disk, ic.fs.mem, ip, ino)
             && ino.kind == T_DIR
    requires dp in g.tree && Known(mem0, dp) && dp != 0 && mem0[dp].nlink < 0x7fff
    modifies ic, ic.fs
    ensures ic.slots == old(ic.slots) && ic.at == old(ic.at)
    ensures !ok ==> DiskOk(ic.fs.sb, ic.fs.disk) && ic.fs.Full()
    ensures ok ==> Sound(ic.fs) && Rooming(disk0, mem0, ic.fs.disk, ic.fs.mem, g.tree, ip, ino, dp)
  {
    hide Owns, AllMapped, AllTails, SyncedBut, Data, DirIs, FilesOf, L.LinkInv, DirsOf, EntList, Dotted, DotsNamed;
    FreshFacts(disk0, mem0, ic.fs.disk, ic.fs.mem, ip, ino, dp, g);
    SetLinks(ic.fs, dp, ic.fs.mem[dp].nlink + 1);
    BytesSame(disk0, mem0, ic.fs.disk, ic.fs.mem);
    ghost var mem1 := ic.fs.mem;
    ok := AddDots(ic, ip, dp);
    if ok {
      CleanAfter(mem0, mem1, ic.fs.mem, ip, dp);
    }
  }

  lemma FreshFacts(disk: seq<Block>, mem: seq<Inode>, disk1: seq<Block>, mem1: seq<Inode>, ip: nat, ino: Inode,
                   dp: nat, g: Shape)
    requires Val(disk, mem, g) && Fresh(disk, mem, disk1, mem1, ip, ino) && dp in g.tree
    ensures ip != dp && mem[ip].size == 0 && |mem| <= 0x1_0000 && dp < |mem| && mem[dp].kind == T_DIR
    ensures forall k | 0 <= k <= NDIRECT :: mem[ip].addrs[k] == 0
  {
    hide Data, DirIs, FilesOf, L.LinkInv, DirsOf;
  }

  lemma CleanAfter(mem0: seq<Inode>, mem1: seq<Inode>, mem2: seq<Inode>, ip: nat, dp: nat)
    requires FreeClean(mem0) && |mem1| == |mem0| && ip < |mem0| && dp < |mem0| && mem0[dp].kind == T_DIR
             && mem1[dp].kind == T_DIR && mem1[ip].kind == T_DIR
    requires (forall i | 0 <= i < |mem0| && i != ip && i != dp :: mem1[i] == mem0[i]) && SameKinds(mem1, mem2, ip)
    ensures FreeClean(mem2)
  {
  }

  /** Inode ip was free and is now what was asked for, with one link and, unless it is a directory,
      no bytes. Its parent dp got an entry and, for a directory, one link more. Every other inode is
      as before, and so are its bytes. */
  ghost predicate IsNew(disk: seq<Block>, mem: seq<Inode>, disk': seq<Block>, mem': seq<Inode>, ip: nat, kind: half,
                        major: half, minor: half, dp: nat)
  {
    && 1 <= ip < |mem| == |mem'| && mem[ip].kind == 0 && dp < |mem| && dp != ip && SizesOk(mem) && SizesOk(mem')
    && mem'[ip].kind == kind && mem'[ip].major == major && mem'[ip].minor == minor && mem'[ip].nlink == 1
    && (kind != T_DIR ==> Data(disk', mem', ip) == [])
    && mem'[dp] == mem[dp].(nlink := mem'[dp].nlink, size := mem'[dp].size, addrs := mem'[dp].addrs)
    && mem'[dp].nlink == mem[dp].nlink + (if kind == T_DIR then 1 else 0)
    && forall f | 0 <= f < |mem| && f != ip && f != dp ::
      mem'[f] == mem[f] && Data(disk', mem', f) == Data(disk, mem, f)
  }

  lemma NoBytes(disk: seq<Block>, mem: seq<Inode>, f: nat)
    requires f < |mem| && mem[f].size == 0
    ensures Data(disk, mem, f) == []
  {
  }

  lemma NewKnown(disk: seq<Block>, mem: seq<Inode>, disk': seq<Block>, mem': seq<Inode>, ip: nat, kind: half,
                 major: half, minor: half, dp: nat)
    requires IsNew(disk, mem, disk', mem', ip, kind, major, minor, dp) && Known(mem, dp)
    ensures Known(mem', dp) && Known(mem', ip)
  {
    hide Data;
  }

  lemma NewHeld(disk: seq<Block>, mem: seq<Inode>, disk': seq<Block>, mem': seq<Inode>, ip: nat, kind: half,
                major: half, minor: half, dp: nat, refs: map<nat, Ref>)
    requires IsNew(disk, mem, disk', mem', ip, kind, major, minor, dp) && OrphansHeld(mem, refs)
    ensures OrphansHeld(mem', refs) && |mem'| == |mem|
  {
    hide Data;
  }

  /** ip, which has links, is locked and referenced once more, and nothing else is. */
  ghost predicate Held(ic: Icache, refs: map<nat, Ref>, s: nat, ip: nat)
    reads ic, ic.fs
  {
    ic.Ok() && ic.Refs() == Plus(refs, ip, s) && InPlace(refs, ip, s) && ic.Locks() == {ip} && Known(ic.fs.mem, ip)
  }

  /** No inode is free, on the disk or in the cache. */
  ghost predicate NoInode(ic: Icache, mem: seq<Inode>)
    reads ic
  {
    CacheFull(ic) || forall i | 1 <= i < |mem| :: mem[i].kind != 0
  }

  /** What a new inode of this kind, named in dp, adds to the tree. */
  ghost function Grown(g: Shape, kind: half, ip: nat, dp: nat, name: Name, at: nat): Shape
  {
    if kind != T_DIR then g.(tree := WithName(g.tree, dp, name, ip, at))
    else Shape(WithName(g.tree[ip := Dotted(ip, dp)], dp, name, ip, at), g.home[ip := L.Home(dp, at)],
               g.depth[ip := (if dp in g.depth then g.depth[dp] else 0) + 1])
  }

  ghost predicate Added(g: Shape, g': Shape, kind: half, ip: nat, dp: nat, name: Name)
  {
    exists at :: g' == Grown(g, kind, ip, dp, name, at)
  }

  /** create once the name is known to be free: a fresh inode, its dots if it is a directory, its
      name. */
  method CreateIn(ic: Icache, s: nat, dp: nat, name: Name, kind: half, major: half, minor: half,
                  ghost refs: map<nat, Ref>, ghost g: Shape)
    returns (r: Created, ip: nat, ghost g': Shape)
    requires Sound(ic.fs) && Val(ic.fs.disk, ic.fs.mem, g) && AllHeld(refs) && kind != 0
    requires kind == T_DIR ==> CountFits(ic.fs.mem, dp)
    requires ic.Ok() && ic.Refs() == Plus(refs, dp, s) && InPlace(refs, dp, s) && ic.Locks() == {dp}
    requires dp in g.tree && Known(ic.fs.mem, dp) && dp != 0 && CString(name) && Trunc(name) == name
             && name !in g.tree[dp]
    modifies ic, ic.fs
    ensures r.CreatePanic? || r.CreateNew?
    ensures r.CreatePanic? ==> NoInode(ic, old(ic.fs.mem)) || NoEntry(ic.fs, old(ic.fs.mem))
    ensures r.CreateNew? ==>
              Sound(ic.fs) && Held(ic, refs, r.slot, ip) && Val(ic.fs.disk, ic.fs.mem, g')
              && Added(g, g', kind, ip, dp, name)
    ensures r.CreateNew? ==>
              IsNew(old(ic.fs.disk), old(ic.fs.mem), ic.fs.disk, ic.fs.mem, ip, kind, major, minor, dp)
  {
    hide Owns, AllMapped, AllTails, SyncedBut, Indexed, RefsIn, LocksIn, Data, DirIs, FilesOf, L.LinkInv, DirsOf,
         DirTree, Plus, Rooming, Added, EntryWritten, FreeAt, IsNew;
    g' := g;
    ghost var disk0, mem0 := ic.fs.disk, ic.fs.mem;
    var ok;
    ok, ip := MakeInode(ic.fs, kind, major, minor);
    if !ok {
      return CreatePanic, 0, g;
    }
    ghost var ino := NewInode(mem0[ip], kind, major, minor);
    FreshFacts(disk0, mem0, ic.fs.disk, ic.fs.mem, ip, ino, dp, g);
    var t;
    ok, t := ic.Iget(ip);
    if !ok {
      return CreatePanic, 0, g;
    }
    InPlaceOther(refs, dp, s, ip, t);
    PlusHolds(Plus(refs, dp, s), ip, t);
    var _ := ic.Ilock(t, ip);
    ghost var at;
    ok, at := NameIt(ic, ip, dp, name, kind, ino, disk0, mem0, g);
    if !ok {
      return CreatePanic, 0, g;
    }
    g' := Grown(g, kind, ip, dp, name, at);
    assert Added(g, g', kind, ip, dp, name) by { AddedAt(g, kind, ip, dp, name, at); }
    NewKnown(disk0, mem0, ic.fs.disk, ic.fs.mem, ip, kind, major, minor, dp);
    LetGo(ic, s, dp, t, ip, refs);
    r := CreateNew(t);
  }

  lemma AddedAt(g: Shape, kind: half, ip: nat, dp: nat, name: Name, at: nat)
    ensures Added(g, Grown(g, kind, ip, dp, name, at), kind, ip, dp, name)
  {
  }

  /** The dots of a directory, then the name. */
  method NameIt(ic: Icache, ip: nat, dp: nat, name: Name, kind: half, ghost ino: Inode, ghost disk0: seq<Block>,
                ghost mem0: seq<Inode>, ghost g: Shape)
    returns (ok: bool, ghost at: nat)
    requires Sound(ic.fs) && ic.Ok() && Val(disk0, mem0, g) && Fresh(disk0, mem0, ic.fs.disk, ic.fs.mem, ip, ino)
             && kind == ino.kind != 0
    requires dp in g.tree && Known(mem0, dp) && dp != 0 && (kind == T_DIR ==> CountFits(mem0, dp))
    requires CString(name) && Trunc(name) == name && name !in g.tree[dp]
    modifies ic, ic.fs
    ensures ic.slots == old(ic.slots) && ic.at == old(ic.at)
    ensures !ok ==> NoEntry(ic.fs, mem0)
    ensures ok ==> Sound(ic.fs) && |ic.fs.mem| == |mem0| && Val(ic.fs.disk, ic.fs.mem, Grown(g, kind, ip, dp, name, at))
    ensures ok ==> IsNew(disk0, mem0, ic.fs.disk, ic.fs.mem, ip, kind, ino.major, ino.minor, dp)
  {
    hide Owns, AllMapped, AllTails, SyncedBut, Data, DirIs, FilesOf, L.LinkInv, DirsOf, DirTree, EntryWritten, FreeAt,
         Dotted, EntList, IsNew;
    at := 0;
    FreshFacts(disk0, mem0, ic.fs.disk, ic.fs.mem, ip, ino, dp, g);
    ghost var tree1 := g.tree;
    if kind == T_DIR {
      ok := MakeRoom(ic, ip, dp, ino, disk0, mem0, g);
      if !ok { return; }
      tree1 := g.tree[ip := Dotted(ip, dp)];
    }
    ghost var disk1, mem1 := ic.fs.disk, ic.fs.mem;
    assert IsDir(ic.fs, dp, tree1[dp]) by { DpIsDir(disk0, mem0, ic.fs, g, ip, ino, dp); }
    assert ic.fs.mem[dp].size == mem0[dp].size by { DpIsDir(disk0, mem0, ic.fs, g, ip, ino, dp); }
    var r;
    r, at := Dirlink(ic, dp, name, ip, tree1[dp]);
    ok := r.LinkDone?;
    OkDisk(ic.fs);
    if ok {
      if kind == T_DIR {
        DirVal(disk0, mem0, disk1, mem1, ic.fs.disk, ic.fs.mem, g, ip, ino, dp, name, at);
      } else {
        FileVal(disk0, mem0, disk1, mem1, ic.fs.disk, ic.fs.mem, g, ip, ino, dp, name, at);
      }
    }
  }

  lemma DpIsDir(disk0: seq<Block>, mem0: seq<Inode>, fs: FileSys, g: Shape, ip: nat, ino: Inode, dp: nat)
    requires Sound(fs) && Val(disk0, mem0, g) && dp in g.tree && dp != ip
    requires if ino.kind == T_DIR then Rooming(disk0, mem0, fs.disk, fs.mem, g.tree, ip, ino, dp)
             else ino.kind != 0 && Fresh(disk0, mem0, fs.disk, fs.mem, ip, ino)
    ensures IsDir(fs, dp, g.tree[dp]) && dp < |mem0| && fs.mem[dp].size == mem0[dp].size
  {
    hide Owns, AllMapped, AllTails, SyncedBut, Data, DirIs, L.LinkInv, EntList, Dotted;
    if ino.kind == T_DIR {
      RoomingDirs(disk0, mem0, fs.disk, fs.mem, g, ip, ino, dp);
    } else {
      FreshFile(disk0, mem0, fs.disk, fs.mem, g, ip, ino);
    }
  }

  // ---------------------------------------------------------------- create

  /** The path names something already, in an existing directory. */
  ghost predicate NameTaken(tree: Tree, cwd: nat, path: seq<byte>)
  {
    Target(tree, StartOf(path, cwd), Components(path), true).Some? && ParentOf(tree, cwd, path) in tree
    && LastName(path) in tree[ParentOf(tree, cwd, path)]
  }

  /** What create returns for a name that is taken. */
  ghost predicate OpensFile(mem: seq<Inode>, tree: Tree, cwd: nat, path: seq<byte>, kind: half)
  {
    NameTaken(tree, cwd, path) && kind == T_FILE
    && var ip := InumOf(tree, ParentOf(tree, cwd, path), LastName(path)); ip < |mem| && mem[ip].kind == T_FILE
  }

  /** create: a free name in an existing directory is given to a new inode, with all counts and the
      tree right; the name of a file is opened if a file was asked for; everything else fails and
      changes nothing. The inode returned is locked and referenced once more. */
  method Create(ic: Icache, path: seq<byte>, kind: half, major: half, minor: half, cwdSlot: nat, cwd: nat,
                ghost g: Shape)
    returns (r: Created, ip: nat, ghost g': Shape)
    requires Ready(ic, cwdSlot, cwd, g.tree, g.home, g.depth) && CString(path) && kind != 0
    requires ParentLinked(ic.fs.mem, g.tree, cwd, path)
    requires kind == T_DIR ==> CountFits(ic.fs.mem, ParentOf(g.tree, cwd, path))
    modifies ic, ic.fs
    ensures !r.CreatePanic? ==> Sound(ic.fs) && Val(ic.fs.disk, ic.fs.mem, g') && |ic.fs.mem| == old(|ic.fs.mem|)
    ensures !r.CreatePanic? ==> OrphansHeld(ic.fs.mem, old(ic.Refs()))
    ensures r.CreatePanic? ==>
              || NoInode(ic, old(ic.fs.mem)) || NoEntry(ic.fs, old(ic.fs.mem))
              || ParentStuck(old(ic.fs.mem), g.tree, cwd, path)
    ensures !r.CreatePanic? ==> !ParentStuck(old(ic.fs.mem), g.tree, cwd, path)
    ensures r.CreateFail? ==> !NameFree(g.tree, cwd, path) && !OpensFile(old(ic.fs.mem), g.tree, cwd, path, kind)
    ensures r.CreateFound? ==>
              OpensFile(old(ic.fs.mem), g.tree, cwd, path, kind)
              && ip == InumOf(g.tree, ParentOf(g.tree, cwd, path), LastName(path))
    ensures r.CreateNew? ==>
              NameFree(g.tree, cwd, path) && Added(g, g', kind, ip, ParentOf(g.tree, cwd, path), LastName(path))
    ensures r.CreateNew? ==>
              IsNew(old(ic.fs.disk), old(ic.fs.mem), ic.fs.disk, ic.fs.mem, ip, kind, major, minor,
                    ParentOf(g.tree, cwd, path))
    ensures r.CreateFail? || r.CreateFound? ==> ic.fs.disk == old(ic.fs.disk) && ic.fs.mem == old(ic.fs.mem) && g' == g
    ensures r.CreateFail? ==> ic.Ok() && ic.Refs() == old(ic.Refs()) && ic.Locks() == {}
    ensures r.CreateFound? || r.CreateNew? ==> Held(ic, old(ic.Refs()), r.slot, ip)
  {
    hide Sound, Indexed, RefsIn, LocksIn, Plus, Data, TreeOf, DirTree, L.LinkInv, DirsOf, Target, Components, Added,
         OrphansHeld, IsNew;
    ghost var refs := ic.Refs();
    assert AllHeld(refs) by { RefsPositive(ic.slots, ic.at); }
    ValTree(ic.fs.disk, ic.fs.mem, g.tree, g.home, g.depth);
    var found, name, dp := Namex(ic, path, true, cwdSlot, cwd, g.tree);
    if found.FoundPanic? {
      return CreatePanic, 0, g;
    }
    if found.FoundNothing? {
      return CreateFail, 0, g;
    }
    TargetInRange(ic.fs.disk, ic.fs.mem, g.tree, StartOf(path, cwd), Components(path), true);
    TruncTwice(Components(path)[|Components(path)| - 1]);
    r, ip, g' := CreateName(ic, found.slot, dp, name, kind, major, minor, refs, g);
    if r.CreateNew? {
      NewHeld(old(ic.fs.disk), old(ic.fs.mem), ic.fs.disk, ic.fs.mem, ip, kind, major, minor, dp, refs);
    }
  }

  /** What create comes to once the parent dp is found: a panic, a new inode, the inode that has the
      name already, or nothing. */
  ghost predicate Outcome(ic: Icache, r: Created, ip: nat, g': Shape, refs: map<nat, Ref>,
                          disk: seq<Block>, mem: seq<Inode>, g: Shape, kind: half, major: half, minor: half, dp: nat,
                          name: Name)
    reads ic, ic.fs
  {
    match r
    case CreatePanic => NoInode(ic, mem) || NoEntry(ic.fs, mem)
    case CreateNew(slot) =>
      && Sound(ic.fs) && Val(ic.fs.disk, ic.fs.mem, g') && Held(ic, refs, slot, ip)
      && !HasName(g.tree, dp, name) && Added(g, g', kind, ip, dp, name)
      && IsNew(disk, mem, ic.fs.disk, ic.fs.mem, ip, kind, major, minor, dp)
    case CreateFound(slot) =>
      && Unchanged(ic.fs, disk, mem, g, g') && Held(ic, refs, slot, ip)
      && HasName(g.tree, dp, name) && ip == InumOf(g.tree, dp, name) && kind == T_FILE && IsFile(mem, ip)
    case CreateFail =>
      && Unchanged(ic.fs, disk, mem, g, g') && ic.Ok() && ic.Refs() == refs && ic.Locks() == {}
      && HasName(g.tree, dp, name) && !(kind == T_FILE && IsFile(mem, InumOf(g.tree, dp, name)))
  }

  ghost predicate Unchanged(fs: FileSys, disk: seq<Block>, mem: seq<Inode>, g: Shape, g': Shape)
    reads fs
  {
    Sound(fs) && fs.disk == disk && fs.mem == mem && g' == g && Val(disk, mem, g)
  }

  /** create from ilock(dp) on. */
  method CreateName(ic: Icache, s: nat, dp: nat, name: Name, kind: half, major: half, minor: half,
                    ghost refs: map<nat, Ref>, ghost g: Shape)
    returns (r: Created, ip: nat, ghost g': Shape)
    requires Sound(ic.fs) && Val(ic.fs.disk, ic.fs.mem, g) && AllHeld(refs) && kind != 0
    requires kind == T_DIR ==> CountFits(ic.fs.mem, dp)
    requires ic.Ok() && ic.Refs() == Plus(refs, dp, s) && InPlace(refs, dp, s) && ic.Locks() == {}
    requires dp in g.tree && Known(ic.fs.mem, dp) && dp != 0 && CString(name) && Trunc(name) == name
    modifies ic, ic.fs
    ensures Outcome(ic, r, ip, g', refs, old(ic.fs.disk), old(ic.fs.mem), g, kind, major, minor, dp, name)
  {
    hide Sound, Indexed, RefsIn, LocksIn, Plus, Data, DirTree, L.LinkInv, DirsOf, DirIs, Added, IsNew;
    PlusHolds(refs, dp, s);
    KnownInUse(ic.fs.disk, ic.fs.mem, g.tree, g.home, g.depth, dp);
    var locked := ic.Ilock(s, dp);
    assert IsDir(ic.fs, dp, g.tree[dp]) by { DirOfTree(ic.fs, g.tree, g.home, g.depth, dp); }
    var look, inum, _ := Dirlookup(ic, dp, name, g.tree[dp]);
    if look.LookPanic? {
      return CreatePanic, 0, g;
    }
    if look.LookNothing? {
      r, ip, g' := CreateIn(ic, s, dp, name, kind, major, minor, refs, g);
      return;
    }
    g', ip := g, inum;
    NextNamed(ic.fs.disk, ic.fs.mem, g, dp, name);
    var t := look.slot;
    InPlaceSame(refs, dp, s, inum, t);
    MoveOn(ic, s, t, dp, inum, refs);
    PlusHolds(refs, inum, t);
    KnownInUse(ic.fs.disk, ic.fs.mem, g.tree, g.home, g.depth, inum);
    locked := ic.Ilock(t, inum);
    if kind == T_FILE && ic.fs.mem[inum].kind == T_FILE {
      return CreateFound(t), inum, g;
    }
    PutLocked(ic, t, inum, refs);
    r := CreateFail;
  }

  ghost predicate HasName(tree: Tree, dp: nat, name: Name)
  {
    dp in tree && name in tree[dp]
  }

  ghost predicate IsFile(mem: seq<Inode>, i: nat)
  {
    i < |mem| && mem[i].kind == T_FILE
  }

  /** What a linked directory names is there and has links. */
  lemma NextNamed(disk: seq<Block>, mem: seq<Inode>, g: Shape, dp: nat, name: Name)
    requires Val(disk, mem, g) && dp in g.tree && Known(mem, dp) && name in g.tree[dp]
    ensures Known(mem, g.tree[dp][name].inum)
  {
    hide Data, DirIs, DirsOf, L.Counted, L.Rooted;
    NameLinked(disk, mem, g.tree, dp, name);
  }

  lemma InPlaceSame(refs: map<nat, Ref>, i: nat, s: nat, j: nat, t: nat)
    requires InPlace(refs, i, s) && InPlace(Plus(refs, i, s), j, t)
    ensures InPlace(refs, j, t) && (i == j ==> s == t)
  {
  }
}
