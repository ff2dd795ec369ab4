/** The directories on the disk as the entry lists of module Links, and what one change of an inode
    or of a directory entry does to them. */
module LinkState {
  import opened Blocks
  import opened Ownership
  import opened FileView
  import opened FileSystem
  import opened FileRuns
  import opened Directories
  import opened Paths
  import L = Links

  const DOT: Name := [46]
  const DOTDOT: Name := [46, 46]

  /** The inode numbers in the first n entries. */
  ghost function Ents(data: seq<byte>, n: nat): (r: seq<nat>)
    requires n <= |data| / DIRENT
    ensures |r| == n && forall i | 0 <= i < n :: r[i] == InumIn(EntryAt(data, i))
  {
    if n == 0 then [] else Ents(data, n - 1) + [InumIn(EntryAt(data, n - 1))]
  }

  ghost function EntList(data: seq<byte>): seq<nat>
  {
    Ents(data, |data| / DIRENT)
  }

  ghost function DirsOf(disk: seq<Block>, mem: seq<Inode>): L.Dirs
    requires SizesOk(mem)
  {
    map d | 0 <= d < |mem| && mem[d].kind == T_DIR :: EntList(Data(disk, mem, d))
  }

  ghost predicate DirTree(disk: seq<Block>, mem: seq<Inode>, tree: Tree)
    requires SizesOk(mem)
  {
    && (forall d | d in tree ::
      d < |mem| && mem[d].kind == T_DIR && DirIs(Data(disk, mem, d), tree[d]) && DotsNamed(tree[d]))
    && (forall d | 0 <= d < |mem| && mem[d].kind == T_DIR :: d in tree)
  }

  /** "." and ".." are the first two entries. */
  ghost predicate DotsNamed(m: map<Name, Slot>)
  {
    DOT in m && m[DOT].at == 0 && DOTDOT in m && m[DOTDOT].at == 1
  }

  /** A free inode is empty and maps nothing. */
  ghost predicate FreeClean(mem: seq<Inode>)
  {
    forall i | 0 <= i < |mem| && mem[i].kind == 0 ::
      mem[i].size == 0 && forall k | 0 <= k <= NDIRECT :: mem[i].addrs[k] == 0
  }

  /** Counts are signed 16-bit numbers, and none is negative. */
  ghost predicate ShortCounts(mem: seq<Inode>)
  {
    forall i | 0 <= i < |mem| :: mem[i].nlink <= 0x7fff
  }

  /** The whole state that the link system calls keep. */
  ghost predicate FsVal(disk: seq<Block>, mem: seq<Inode>, tree: Tree, home: map<nat, L.Home>, depth: map<nat, nat>)
  {
    && SizesOk(mem) && |mem| <= 0x1_0000 && FreeClean(mem) && ShortCounts(mem)
    && DirTree(disk, mem, tree)
    && L.LinkInv(mem, DirsOf(disk, mem), home, depth)
  }

  // ---------------------------------------------------------------- names and entries

  lemma EntryOf(disk: seq<Block>, mem: seq<Inode>, tree: Tree, d: nat, k: Name)
    requires SizesOk(mem) && DirTree(disk, mem, tree) && d in tree && k in tree[d]
    ensures d in DirsOf(disk, mem)
    ensures var s := tree[d][k];
      s.at < |DirsOf(disk, mem)[d]| && DirsOf(disk, mem)[d][s.at] == s.inum && 0 < s.inum < 0x1_0000
  {
    hide NameIn, InumIn, EntryAt, Data;
  }

  /** Only "." and ".." are in the first two entries. */
  lemma NotDots(disk: seq<Block>, mem: seq<Inode>, tree: Tree, d: nat, k: Name)
    requires SizesOk(mem) && DirTree(disk, mem, tree) && d in tree && k in tree[d] && k != DOT && k != DOTDOT
    ensures tree[d][k].at >= 2
  {
    hide NameIn, InumIn, EntryAt, Data;
    assert DirIs(Data(disk, mem, d), tree[d]) && DotsNamed(tree[d]);
  }

  /** What the paths need follows from the link counts. */
  lemma ValTree(disk: seq<Block>, mem: seq<Inode>, tree: Tree, home: map<nat, L.Home>, depth: map<nat, nat>)
    requires FsVal(disk, mem, tree, home, depth)
    ensures TreeOf(disk, mem, tree) && Known(mem, ROOTINO)
  {
    hide DirIs, Data, L.Counted, DirsOf, L.HomeOk;
    forall d, k | d in tree && k in tree[d]
      ensures tree[d][k].inum < |mem|
    {
      NameInRange(disk, mem, tree, home, depth, d, k);
    }
    forall d | d in tree && mem[d].nlink != 0
      ensures NamesKnown(mem, tree, d)
    {
      forall k | k in tree[d]
        ensures tree[d][k].inum == d || Known(mem, tree[d][k].inum)
      {
        NameLinked(disk, mem, tree, d, k);
      }
    }
  }

  /** What any directory names, linked or not, is the number of an inode. */
  lemma NameInRange(disk: seq<Block>, mem: seq<Inode>, tree: Tree, home: map<nat, L.Home>, depth: map<nat, nat>,
                    d: nat, k: Name)
    requires FsVal(disk, mem, tree, home, depth) && d in tree && k in tree[d]
    ensures tree[d][k].inum < |mem|
  {
    hide DirIs, Data, L.Counted, DirsOf, L.Rooted, DirTree;
    EntryOf(disk, mem, tree, d, k);
    if Known(mem, d) {
      NameLinked(disk, mem, tree, d, k);
    }
  }

  lemma NameLinked(disk: seq<Block>, mem: seq<Inode>, tree: Tree, d: nat, k: Name)
    requires SizesOk(mem) && DirTree(disk, mem, tree) && L.Shaped(mem, DirsOf(disk, mem))
             && L.Counted(mem, DirsOf(disk, mem))
    requires d in tree && k in tree[d] && mem[d].nlink != 0
    ensures tree[d][k].inum == d || Known(mem, tree[d][k].inum)
    ensures tree[d][k].at > 0 ==> L.Names(mem, DirsOf(disk, mem), d, tree[d][k].at, tree[d][k].inum)
  {
    hide DirIs, Data, L.Counted, DirsOf, DirTree;
    EntryOf(disk, mem, tree, d, k);
    var s := tree[d][k];
    if s.at > 0 {
      L.NamedIsLinked(mem, DirsOf(disk, mem), d, s.at, s.inum);
    }
  }

  /** A path that starts in a linked directory leads to something with links. */
  lemma {:induction false} TargetLinked(disk: seq<Block>, mem: seq<Inode>, tree: Tree, i: nat, parts: seq<Name>,
                                        parent: bool)
    requires TreeOf(disk, mem, tree) && Known(mem, i) && i != 0
    ensures var t := Target(tree, i, parts, parent);
      t.Some? ==> Known(mem, t.inum) && t.inum != 0 && (parent ==> t.inum in tree)
    decreases |parts|
  {
    hide Data;
    if parts != [] && i in tree && !(parent && |parts| == 1) && Trunc(parts[0]) in tree[i] {
      assert NamesKnown(mem, tree, i) && DirIs(Data(disk, mem, i), tree[i]);
      TargetLinked(disk, mem, tree, tree[i][Trunc(parts[0])].inum, parts[1..], parent);
    }
  }

  /** Nor does it get stuck. */
  lemma {:induction false} NeverStuck(disk: seq<Block>, mem: seq<Inode>, tree: Tree, i: nat, parts: seq<Name>,
                                      parent: bool)
    requires TreeOf(disk, mem, tree) && Known(mem, i) && i != 0
    ensures !Stuck(mem, tree, i, parts, parent)
    decreases |parts|
  {
    hide Data;
    if parts != [] && i in tree && Trunc(parts[0]) in tree[i] {
      assert NamesKnown(mem, tree, i) && DirIs(Data(disk, mem, i), tree[i]);
      NeverStuck(disk, mem, tree, tree[i][Trunc(parts[0])].inum, parts[1..], parent);
    }
  }

  /** Wherever a path starts, it leads to an inode, and its parent is a directory. */
  lemma {:induction false} TargetInRange(disk: seq<Block>, mem: seq<Inode>, tree: Tree, i: nat, parts: seq<Name>,
                                         parent: bool)
    requires TreeOf(disk, mem, tree) && 0 < i < |mem|
    ensures var t := Target(tree, i, parts, parent);
      t.Some? ==> 0 < t.inum < |mem| && (parent ==> t.inum in tree && parts != [])
    decreases |parts|
  {
    hide Data;
    if parts != [] && i in tree && !(parent && |parts| == 1) && Trunc(parts[0]) in tree[i] {
      assert DirIs(Data(disk, mem, i), tree[i]);
      TargetInRange(disk, mem, tree, tree[i][Trunc(parts[0])].inum, parts[1..], parent);
    }
  }

  /** Getting stuck depends on the kinds alone. */
  lemma {:induction false} SameStuck(mem: seq<Inode>, mem': seq<Inode>, tree: Tree, i: nat, parts: seq<Name>,
                                     parent: bool)
    requires |mem'| == |mem| && forall j | 0 <= j < |mem| :: mem'[j].kind == mem[j].kind
    ensures Stuck(mem', tree, i, parts, parent) == Stuck(mem, tree, i, parts, parent)
    decreases |parts|
  {
    if parts != [] && i in tree && Trunc(parts[0]) in tree[i] {
      SameStuck(mem, mem', tree, tree[i][Trunc(parts[0])].inum, parts[1..], parent);
    }
  }

  /** What has links is in use. */
  lemma KnownInUse(disk: seq<Block>, mem: seq<Inode>, tree: Tree, home: map<nat, L.Home>, depth: map<nat, nat>, i: nat)
    requires FsVal(disk, mem, tree, home, depth) && Known(mem, i)
    ensures mem[i].kind != 0
  {
    hide DirTree, L.Counted, L.Rooted;
  }

  // ---------------------------------------------------------------- changes

  /** Kinds and counts as in other, whatever the sizes and addresses. */
  ghost predicate SameLinks(mem: seq<Inode>, other: seq<Inode>)
  {
    |other| == |mem| && forall i | 0 <= i < |mem| :: other[i].kind == mem[i].kind && other[i].nlink == mem[i].nlink
  }

  lemma SameLinksInv(mem: seq<Inode>, other: seq<Inode>, dirs: L.Dirs, home: map<nat, L.Home>, depth: map<nat, nat>)
    requires L.LinkInv(mem, dirs, home, depth) && SameLinks(mem, other)
    ensures L.LinkInv(other, dirs, home, depth)
  {
    forall d: nat, j: nat, i: nat
      ensures L.Names(other, dirs, d, j, i) <==> L.Names(mem, dirs, d, j, i)
    {
    }
    forall i | 1 <= i < |mem|
      ensures L.Naming(other, dirs, i) == L.Naming(mem, dirs, i)
    {
      L.SameNaming(mem, dirs, other, dirs, i);
    }
    hide L.Names, L.Naming;
    L.SameRooted(mem, dirs, other, dirs, home, depth);
  }

  lemma SplicedEnts(data: seq<byte>, i: nat, de: seq<byte>)
    requires Whole(data) && i <= |data| / DIRENT && |de| == DIRENT
    ensures var was := EntList(data);
      EntList(Spliced(data, DIRENT * i, de)) == if i < |was| then was[i := InumIn(de)] else was + [InumIn(de)]
  {
    hide InumIn, EntryAt, Spliced, Ents;
    var now, was := EntList(Spliced(data, DIRENT * i, de)), EntList(data);
    SplicedEntry(data, i, de, 0);
    var want := if i < |was| then was[i := InumIn(de)] else was + [InumIn(de)];
    forall j | 0 <= j < |now|
      ensures now[j] == want[j]
    {
      SplicedEntry(data, i, de, j);
    }
  }

  /** An entry write, seen by the entry lists. */
  lemma DirsAfterEntry(disk: seq<Block>, mem: seq<Inode>, disk': seq<Block>, mem': seq<Inode>, dp: nat, at: nat,
                       inum: nat)
    requires SizesOk(mem) && SizesOk(mem') && SameKinds(mem, mem', dp) && dp < |mem| && mem[dp].kind == T_DIR
    requires Whole(Data(disk, mem, dp)) && at <= |Data(disk, mem, dp)| / DIRENT
    requires EntryWritten(FilesOf(disk, mem), FilesOf(disk', mem'), dp, at, inum)
    ensures dp in DirsOf(disk, mem) && at <= |DirsOf(disk, mem)[dp]|
    ensures DirsOf(disk', mem') == L.WithEntry(DirsOf(disk, mem), dp, at, inum)
  {
    hide Data, Ents, InumIn, EntryAt, Spliced;
    var files, files' := FilesOf(disk, mem), FilesOf(disk', mem');
    var de: seq<byte> :| |de| == DIRENT && InumIn(de) == inum && dp < |files| && DIRENT * at <= |files[dp]|
                         && files' == files[dp := Spliced(files[dp], DIRENT * at, de)];
    SplicedEnts(files[dp], at, de);
    forall d | 0 <= d < |mem| && d != dp
      ensures Data(disk', mem', d) == Data(disk, mem, d)
    {
      assert files'[d] == files[d];
    }
    assert Data(disk', mem', dp) == files'[dp];
  }

  /** An entry write leaves the bytes of every other file alone. */
  lemma OthersSameBytes(disk: seq<Block>, mem: seq<Inode>, disk': seq<Block>, mem': seq<Inode>, dp: nat, at: nat,
                        inum: nat)
    requires SizesOk(mem) && SizesOk(mem') && |mem'| == |mem|
    requires EntryWritten(FilesOf(disk, mem), FilesOf(disk', mem'), dp, at, inum)
    ensures forall f | 0 <= f < |mem| && f != dp :: Data(disk', mem', f) == Data(disk, mem, f)
  {
    hide Data, InumIn, Spliced;
    var files, files' := FilesOf(disk, mem), FilesOf(disk', mem');
    forall f | 0 <= f < |mem| && f != dp
      ensures Data(disk', mem', f) == Data(disk, mem, f)
    {
      assert files'[f] == files[f];
    }
  }

  lemma BytesSame(disk: seq<Block>, mem: seq<Inode>, disk': seq<Block>, mem': seq<Inode>)
    requires SizesOk(mem) && SizesOk(mem') && |mem'| == |mem| && FilesOf(disk', mem') == FilesOf(disk, mem)
    ensures forall d | 0 <= d < |mem| :: Data(disk', mem', d) == Data(disk, mem, d)
  {
    hide Data;
    forall d | 0 <= d < |mem|
      ensures Data(disk', mem', d) == Data(disk, mem, d)
    {
      assert FilesOf(disk', mem')[d] == FilesOf(disk, mem)[d];
    }
  }

  /** mem' is mem1 but for the size and the addresses of directory dp, and outside `but` the bytes of
      every file are as they were. */
  ghost predicate OnlyEntry(disk: seq<Block>, mem: seq<Inode>, mem1: seq<Inode>, disk': seq<Block>, mem': seq<Inode>,
                            dp: nat, but: set<nat>)
  {
    && |mem'| == |mem| && SizesOk(mem) && SizesOk(mem') && SameKinds(mem1, mem', dp)
    && forall f | 0 <= f < |mem| && f !in but :: Data(disk', mem', f) == Data(disk, mem, f)
  }

  /** A change of an inode's other fields, seen by the entry lists. */
  lemma DirsAfterFields(disk: seq<Block>, mem: seq<Inode>, disk': seq<Block>, mem': seq<Inode>)
    requires SizesOk(mem) && SizesOk(mem') && |mem'| == |mem| && FilesOf(disk', mem') == FilesOf(disk, mem)
    requires forall d | 0 <= d < |mem| :: mem'[d].kind == mem[d].kind
    ensures DirsOf(disk', mem') == DirsOf(disk, mem)
    ensures forall d | 0 <= d < |mem| :: Data(disk', mem', d) == Data(disk, mem, d)
  {
    hide Data, Ents;
    forall d | 0 <= d < |mem|
      ensures Data(disk', mem', d) == Data(disk, mem, d)
    {
      assert FilesOf(disk', mem')[d] == FilesOf(disk, mem)[d];
    }
  }

  /** The tree after an entry write in dp. */
  lemma TreeAfterEntry(disk: seq<Block>, mem: seq<Inode>, disk': seq<Block>, mem': seq<Inode>, tree: Tree, dp: nat,
                       m: map<Name, Slot>, at: nat, inum: nat)
    requires SizesOk(mem) && SizesOk(mem') && SameKinds(mem, mem', dp) && DirTree(disk, mem, tree) && dp in tree
    requires EntryWritten(FilesOf(disk, mem), FilesOf(disk', mem'), dp, at, inum)
    requires dp < |mem'| && DirIs(Data(disk', mem', dp), m) && DotsNamed(m)
    ensures DirTree(disk', mem', tree[dp := m])
  {
    hide Data, InumIn, EntryAt, Spliced, DirIs;
    var files, files' := FilesOf(disk, mem), FilesOf(disk', mem');
    forall d | d in tree && d != dp
      ensures d < |mem'| && Data(disk', mem', d) == Data(disk, mem, d)
    {
      assert files'[d] == files[d];
    }
  }
}
