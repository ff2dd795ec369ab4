/** main of mkfs.c: a root directory with its dots, and a file for each argument. The image mounts as
    a file system with the right link counts and tree. */
module MkfsMain {
  import opened Blocks
  import opened Bitmap
  import opened Ownership
  import opened Inodes
  import opened FileView
  import opened FileSystem
  import opened FileRuns
  import opened BlockCount
  import opened MkfsImage
  import opened Directories
  import opened LinkState
  import opened CreateCall
  import L = Links

  /** A file to copy: its name, and what each read of it gives. */
  datatype Arg = Arg(name: seq<byte>, chunks: seq<seq<byte>>)

  const UNDERSCORE: byte := 95

  /** The name in the file system: a leading underscore is skipped. */
  function NameOf(arg: Arg): (r: seq<byte>)
    ensures arg.name == r || arg.name == [95] + r
    ensures arg.name == r ==> arg.name == [] || arg.name[0] != 95
  {
    if arg.name != [] && arg.name[0] == UNDERSCORE then arg.name[1..] else arg.name
  }

  function Joined(chunks: seq<seq<byte>>): seq<byte>
  {
    if chunks == [] then [] else Joined(chunks[..|chunks| - 1]) + chunks[|chunks| - 1]
  }

  function Entry(inum: nat, name: seq<byte>): (de: seq<byte>)
    requires inum < 0x1_0000
    ensures |de| == DIRENT && InumIn(de) == inum
  {
    MakeEntry(inum, Padded(name))
  }

  /** The root directory: its dots, then the files, of which the i-th has inode i + 2. */
  function RootBytes(args: seq<Arg>): (r: seq<byte>)
    requires |args| + 2 <= 0x1_0000
    ensures |r| == DIRENT * (|args| + 2)
  {
    if args == [] then Entry(ROOTINO, DOT) + Entry(ROOTINO, DOTDOT)
    else RootBytes(args[..|args| - 1]) + Entry(|args| + 1, NameOf(args[|args| - 1]))
  }

  /** The bytes of each inode. */
  ghost function ContentsOf(args: seq<Arg>, i: nat): seq<byte>
    requires |args| + 2 <= 0x1_0000
  {
    if i == ROOTINO then RootBytes(args) else if 2 <= i < |args| + 2 then Joined(args[i - 2].chunks) else []
  }

  ghost function Contents(ninodes: nat, args: seq<Arg>): (r: seq<seq<byte>>)
    requires |args| + 2 <= ninodes <= 0x1_0000
    ensures |r| == ninodes && forall i | 0 <= i < ninodes :: r[i] == ContentsOf(args, i)
  {
    seq(ninodes, i requires 0 <= i < ninodes => ContentsOf(args, i))
  }

  /** The first n inodes are in use, with one link each: the root and files. */
  ghost predicate InUse(mem: seq<Inode>, n: nat)
  {
    && |mem| >= n >= 2 && mem[ROOTINO].kind == T_DIR && mem[ROOTINO].nlink == 1
    && (forall i | 2 <= i < n :: mem[i].kind == T_FILE && mem[i].nlink == 1)
    && (forall i | 0 <= i < |mem| && (i == 0 || n <= i) :: mem[i] == NOINODE)
  }

  // ---------------------------------------------------------------- the directory

  ghost predicate NamesOk(args: seq<Arg>)
  {
    && (forall i | 0 <= i < |args| ::
      CString(args[i].name) && Trunc(NameOf(args[i])) != DOT && Trunc(NameOf(args[i])) != DOTDOT)
    && (forall i, j | 0 <= i < j < |args| :: Trunc(NameOf(args[i])) != Trunc(NameOf(args[j])))
  }

  ghost function RootMap(args: seq<Arg>): map<Name, Slot>
  {
    if args == [] then map[DOT := Slot(ROOTINO, 0)][DOTDOT := Slot(ROOTINO, 1)]
    else RootMap(args[..|args| - 1])[Trunc(NameOf(args[|args| - 1])) := Slot(|args| + 1, |args| + 1)]
  }

  lemma {:induction false} RootNames(args: seq<Arg>, name: Name)
    ensures name in RootMap(args) <==>
              name == DOT || name == DOTDOT || exists i :: 0 <= i < |args| && Trunc(NameOf(args[i])) == name
  {
    if args != [] {
      RootNames(args[..|args| - 1], name);
    }
  }

  /** Appending an entry. */
  lemma AppendIs(data: seq<byte>, m: map<Name, Slot>, inum: nat, name: seq<byte>)
    requires DirIs(data, m) && 0 < inum < 0x1_0000 && CString(name) && Trunc(name) !in m
    ensures DirIs(data + Entry(inum, name), m[Trunc(name) := Slot(inum, |data| / DIRENT)])
    ensures EntList(data + Entry(inum, name)) == EntList(data) + [inum]
  {
    hide NameIn, InumIn, EntryAt, Spliced, FieldName, Ents, Padded, Trunc, DirIs;
    var de := Entry(inum, name);
    PaddedName(name);
    assert Whole(data) by { DirWhole(data, m); }
    assert Spliced(data, |data|, de) == data + de by { SplicedEnd(data, de); }
    LinkedIs(data, m, |data| / DIRENT, de);
    SplicedEnts(data, |data| / DIRENT, de);
  }

  lemma DirWhole(data: seq<byte>, m: map<Name, Slot>)
    requires DirIs(data, m)
    ensures Whole(data)
  {
  }

  lemma SplicedEnd(data: seq<byte>, de: seq<byte>)
    ensures Spliced(data, |data|, de) == data + de
  {
  }

  /** Zeros after the last entry are free entries. */
  lemma {:induction false} ZerosIs(data: seq<byte>, m: map<Name, Slot>, k: nat)
    requires DirIs(data, m)
    ensures DirIs(data + Zeros(DIRENT * k), m)
    ensures EntList(data + Zeros(DIRENT * k)) == EntList(data) + seq(k, _ => 0)
  {
    hide DirIs, EntList;
    if k == 0 {
      assert data + Zeros(0) == data && EntList(data) + [] == EntList(data);
    } else {
      ZerosIs(data, m, k - 1);
      var before, de := data + Zeros(DIRENT * (k - 1)), Zeros(DIRENT);
      assert data + Zeros(DIRENT * k) == before + de;
      FreeMore(before, m, de);
      assert EntList(data) + seq(k - 1, _ => 0) + [0] == EntList(data) + seq(k, _ => 0);
    }
  }

  lemma FreeMore(data: seq<byte>, m: map<Name, Slot>, de: seq<byte>)
    requires DirIs(data, m) && |de| == DIRENT && InumIn(de) == 0
    ensures DirIs(data + de, m) && EntList(data + de) == EntList(data) + [0]
  {
    hide NameIn, InumIn, EntryAt, Spliced, Ents;
    var now := data + de;
    SplicedEnd(data, de);
    SplicedEntry(data, |data| / DIRENT, de, 0);
    forall j | 0 <= j < |now| / DIRENT
      ensures EntryAt(now, j) == if j == |data| / DIRENT then de else EntryAt(data, j)
    {
      SplicedEntry(data, |data| / DIRENT, de, j);
    }
    SplicedEnts(data, |data| / DIRENT, de);
  }

  /** 1, 1, 2, 3, ... : entry i + 2 names inode i + 2. */
  ghost function RootEnts(n: nat): (r: seq<nat>)
    ensures |r| == n + 2 && r[0] == r[1] == ROOTINO && forall j | 2 <= j < n + 2 :: r[j] == j
  {
    if n == 0 then [ROOTINO, ROOTINO] else RootEnts(n - 1) + [n + 1]
  }

  lemma {:induction false} RootIs(args: seq<Arg>)
    requires NamesOk(args) && |args| + 2 <= 0x1_0000
    ensures DirIs(RootBytes(args), RootMap(args)) && DotsNamed(RootMap(args))
    ensures EntList(RootBytes(args)) == RootEnts(|args|)
  {
    hide DirIs, EntList, Trunc;
    if args == [] {
      DotsIs();
    } else {
      var n := |args| - 1;
      RootIs(args[..n]);
      var name := NameOf(args[n]);
      assert Trunc(name) !in RootMap(args[..n]) by { RootNames(args[..n], Trunc(name)); }
      AppendIs(RootBytes(args[..n]), RootMap(args[..n]), n + 2, name);
      assert DIRENT * (n + 2) / DIRENT == n + 2;
    }
  }

  lemma DotsIs()
    ensures DirIs(Entry(ROOTINO, DOT) + Entry(ROOTINO, DOTDOT), RootMap([])) && DotsNamed(RootMap([]))
    ensures EntList(Entry(ROOTINO, DOT) + Entry(ROOTINO, DOTDOT)) == [ROOTINO, ROOTINO]
  {
    hide MakeEntry, Padded, EntryAt;
    assert |DOT| == 1 && |DOTDOT| == 2;
    var none: seq<byte> := [];
    assert DirIs(none, map[]) && EntList(none) == [];
    hide DirIs, EntList;
    AppendIs(none, map[], ROOTINO, DOT);
    assert none + Entry(ROOTINO, DOT) == Entry(ROOTINO, DOT);
    AppendIs(Entry(ROOTINO, DOT), map[DOT := Slot(ROOTINO, 0)], ROOTINO, DOTDOT);
  }

  // ---------------------------------------------------------------- counts and tree

  /** Every file has one name, in the root, which is its own parent. */
  lemma MadeInv(mem: seq<Inode>, n: nat, ents: seq<nat>)
    requires InUse(mem, n + 2) && |ents| >= n + 2 && ents[..n + 2] == RootEnts(n)
             && forall j | n + 2 <= j < |ents| :: ents[j] == 0
    ensures L.LinkInv(mem, map[ROOTINO := ents], map[], map[ROOTINO := 0])
  {
    var dirs: L.Dirs := map[ROOTINO := ents];
    forall d: nat, j: nat, i: nat
      ensures L.Names(mem, dirs, d, j, i) <==> d == ROOTINO && 1 <= j < |ents| && i == (if j < n + 2 then j else 0)
    {
      RootNaming(mem, n, ents, d, j, i);
    }
    hide L.Names, RootEnts;
    forall i | 1 <= i < |mem|
      ensures mem[i].nlink == |L.Naming(mem, dirs, i)|
    {
      OneNameEach(mem, n, ents, i);
    }
    hide L.Naming;
    assert L.Shaped(mem, dirs) by { RootShaped(mem, n, ents); }
  }

  lemma RootNaming(mem: seq<Inode>, n: nat, ents: seq<nat>, d: nat, j: nat, i: nat)
    requires InUse(mem, n + 2) && |ents| >= n + 2 && ents[..n + 2] == RootEnts(n)
             && forall j | n + 2 <= j < |ents| :: ents[j] == 0
    ensures L.Names(mem, map[ROOTINO := ents], d, j, i) <==>
              d == ROOTINO && 1 <= j < |ents| && i == (if j < n + 2 then j else 0)
  {
    if j < n + 2 {
      assert ents[j] == ents[..n + 2][j];
    }
  }

  lemma OneNameEach(mem: seq<Inode>, n: nat, ents: seq<nat>, i: nat)
    requires InUse(mem, n + 2) && |ents| >= n + 2 && 1 <= i < |mem|
    requires forall d: nat, j: nat ::
      L.Names(mem, map[ROOTINO := ents], d, j, i) <==>
          d == ROOTINO && 1 <= j < |ents| && i == (if j < n + 2 then j else 0)
    ensures mem[i].nlink == |L.Naming(mem, map[ROOTINO := ents], i)|
  {
    hide L.Names;
    if i < n + 2 {
      assert L.Naming(mem, map[ROOTINO := ents], i) == {L.Home(ROOTINO, i)};
    } else {
      assert L.Naming(mem, map[ROOTINO := ents], i) == {};
    }
  }

  lemma RootShaped(mem: seq<Inode>, n: nat, ents: seq<nat>)
    requires InUse(mem, n + 2) && |ents| >= n + 2 && ents[..n + 2] == RootEnts(n)
    ensures L.Shaped(mem, map[ROOTINO := ents])
  {
    assert ents[0] == ents[..n + 2][0] && ents[1] == ents[..n + 2][1];
  }

  ghost function RootShape(args: seq<Arg>): Shape
  {
    Shape(map[ROOTINO := RootMap(args)], map[], map[ROOTINO := 0])
  }

  lemma MadeVal(disk: seq<Block>, mem: seq<Inode>, args: seq<Arg>, k: nat)
    requires SizesOk(mem) && |mem| <= 0x1_0000 && InUse(mem, |args| + 2) && NamesOk(args)
    requires Data(disk, mem, ROOTINO) == RootBytes(args) + Zeros(DIRENT * k)
    ensures Val(disk, mem, RootShape(args))
  {
    hide Data, DirIs, EntList, RootBytes, RootMap, L.LinkInv, NamesOk, DotsNamed, RootEnts;
    RootIs(args);
    ZerosIs(RootBytes(args), RootMap(args), k);
    var ents := RootEnts(|args|) + seq(k, _ => 0);
    assert ents[..|args| + 2] == RootEnts(|args|);
    MadeInv(mem, |args|, ents);
    hide InUse, DirsOf, DirTree;
    OnlyRoot(mem, |args| + 2);
    RootOnly(disk, mem, RootMap(args), ents);
  }

  /** A file system whose only directory is the root. */
  lemma RootOnly(disk: seq<Block>, mem: seq<Inode>, m: map<Name, Slot>, ents: seq<nat>)
    requires SizesOk(mem) && |mem| > ROOTINO && forall d | 0 <= d < |mem| :: mem[d].kind == T_DIR <==> d == ROOTINO
    requires DirIs(Data(disk, mem, ROOTINO), m) && EntList(Data(disk, mem, ROOTINO)) == ents && DotsNamed(m)
    ensures DirsOf(disk, mem) == map[ROOTINO := ents] && DirTree(disk, mem, map[ROOTINO := m])
  {
    hide Data, DirIs, EntList, DotsNamed;
  }

  lemma OnlyRoot(mem: seq<Inode>, n: nat)
    requires InUse(mem, n)
    ensures FreeClean(mem) && forall d | 0 <= d < |mem| :: mem[d].kind == T_DIR <==> d == ROOTINO
  {
  }

  // ---------------------------------------------------------------- main

  /** The root and the files of args are in the image. */
  ghost predicate Built(img: Image, args: seq<Arg>)
    reads img
  {
    && img.Ready() && |args| + 2 == img.freeinode <= |img.mem| <= 0x1_0000 && InUse(img.mem, |args| + 2)
    && FilesOf(img.Seen(), img.mem) == Contents(|img.mem|, args)
  }

  /** ialloc and iappend for the root. */
  method MakeRoot(img: Image) returns (ok: bool)
    requires img.Ready() && img.freeinode == 1 && 2 <= |img.mem| <= 0x1_0000 && img.mem == NoInodes(|img.mem|)
    requires FilesOf(img.Seen(), img.mem) == NoFiles(|img.mem|)
    modifies img
    ensures |img.mem| == old(|img.mem|)
    ensures ok <==> Fits(img.sb, Contents(|img.mem|, []))
    ensures ok ==> Built(img, [])
  {
    hide Building, AllMapped, AllTails, SyncedBut, AllExact, Need, FilesOf, Marked, Fits, Data, Entry, Contents;
    ghost var n := |img.mem|;
    ghost var all := Contents(n, []);
    FirstContents(n);
    var rootino := img.Ialloc(T_DIR);
    assert rootino == ROOTINO;
    ghost var one := NoFiles(n)[ROOTINO := Entry(ROOTINO, DOT)];
    assert [] + Entry(ROOTINO, DOT) == Entry(ROOTINO, DOT);
    SizeIs(img, ROOTINO);
    ok := img.Append(rootino, Entry(rootino, DOT));
    if !ok {
      if Fits(img.sb, all) { FitsLess(img.sb, one, all); }
      return;
    }
    SizeIs(img, ROOTINO);
    assert one[ROOTINO := Entry(ROOTINO, DOT) + Entry(ROOTINO, DOTDOT)] == all;
    ok := img.Append(rootino, Entry(rootino, DOTDOT));
  }

  lemma FirstContents(ninodes: nat)
    requires 2 <= ninodes <= 0x1_0000
    ensures Contents(ninodes, []) == NoFiles(ninodes)[ROOTINO := Entry(ROOTINO, DOT) + Entry(ROOTINO, DOTDOT)]
  {
    hide Entry, Contents;
    assert RootBytes([]) == Entry(ROOTINO, DOT) + Entry(ROOTINO, DOTDOT);
  }

  /** One turn of the loop over the arguments. */
  method CopyFile(img: Image, args: seq<Arg>, k: nat) returns (ok: bool)
    requires k < |args| && Built(img, args[..k]) && |args| + 2 <= |img.mem|
    modifies img
    ensures |img.mem| == old(|img.mem|)
    ensures ok <==> Fits(img.sb, Contents(|img.mem|, args[..k + 1]))
    ensures ok ==> Built(img, args[..k + 1])
  {
    hide Building, AllMapped, AllTails, SyncedBut, AllExact, Need, FilesOf, Marked, Fits, Data, Entry, RootBytes,
         Contents, Joined, NameOf;
    ghost var n, was, all := |img.mem|, Contents(|img.mem|, args[..k]), Contents(|img.mem|, args[..k + 1]);
    var arg := args[k];
    var inum := img.Ialloc(T_FILE);
    assert inum == k + 2;
    NextContents(n, args, k);
    SizeIs(img, ROOTINO);
    ok := img.Append(ROOTINO, Entry(inum, NameOf(arg)));
    ghost var named := was[ROOTINO := RootBytes(args[..k + 1])];
    if !ok {
      if Fits(img.sb, all) { FitsLess(img.sb, named, all); }
      return;
    }
    ok := CopyChunks(img, inum, arg.chunks);
  }

  method AppendData(img: Image, inum: nat, data: seq<byte>) returns (ok: bool)
    requires img.Ready() && 2 <= inum < |img.mem| && img.freeinode == inum + 1 && InUse(img.mem, inum + 1)
    modifies img
    ensures |img.mem| == old(|img.mem|)
    ensures ok <==> Fits(img.sb, Longer(old(FilesOf(img.Seen(), img.mem)), inum, data))
    ensures ok ==> img.Ready() && img.freeinode == inum + 1 && InUse(img.mem, inum + 1)
    ensures ok ==> FilesOf(img.Seen(), img.mem) == Longer(old(FilesOf(img.Seen(), img.mem)), inum, data)
  {
    hide Building, AllMapped, AllTails, SyncedBut, AllExact, Need, FilesOf, Marked, Fits, Data;
    SizeIs(img, inum);
    ok := img.Append(inum, data);
  }

  ghost function Longer(files: seq<seq<byte>>, f: nat, data: seq<byte>): seq<seq<byte>>
    requires f < |files|
  {
    files[f := files[f] + data]
  }

  /** `while((cc = read(fd, buf, sizeof(buf))) > 0) iappend(inum, buf, cc)`. */
  method CopyChunks(img: Image, inum: nat, chunks: seq<seq<byte>>) returns (ok: bool)
    requires img.Ready() && 2 <= inum < |img.mem| && img.freeinode == inum + 1 && InUse(img.mem, inum + 1)
    requires FilesOf(img.Seen(), img.mem)[inum] == []
    modifies img
    ensures |img.mem| == old(|img.mem|)
    ensures ok <==> Fits(img.sb, old(FilesOf(img.Seen(), img.mem))[inum := Joined(chunks)])
    ensures ok ==> img.Ready() && img.freeinode == inum + 1 && InUse(img.mem, inum + 1)
    ensures ok ==> FilesOf(img.Seen(), img.mem) == old(FilesOf(img.Seen(), img.mem))[inum := Joined(chunks)]
  {
    hide Building, AllMapped, AllTails, SyncedBut, AllExact, Need, FilesOf, Marked, Fits, Data, Joined, InUse;
    ghost var n, named := |img.mem|, FilesOf(img.Seen(), img.mem);
    ghost var all := named[inum := Joined(chunks)];
    var c := 0;
    ok := true;
    assert chunks[..0] == [] && Joined([]) == [] && named[inum := []] == named by { JoinedNone(); }
    while c < |chunks|
      invariant 0 <= c <= |chunks| && ok && |img.mem| == n && img.freeinode == inum + 1
      invariant img.Ready() && InUse(img.mem, inum + 1)
      invariant FilesOf(img.Seen(), img.mem) == named[inum := Joined(chunks[..c])]
    {
      JoinedMore(chunks, c);
      assert Longer(FilesOf(img.Seen(), img.mem), inum, chunks[c]) == named[inum := Joined(chunks[..c + 1])];
      ok := AppendData(img, inum, chunks[c]);
      if !ok {
        if Fits(img.sb, all) { FitsLess(img.sb, named[inum := Joined(chunks[..c + 1])], all); }
        return;
      }
      c := c + 1;
    }
    assert chunks[..c] == chunks;
    FitsNow(img);
  }

  lemma JoinedNone()
    ensures Joined([]) == []
  {
  }

  lemma {:induction false} JoinedMore(chunks: seq<seq<byte>>, c: nat)
    requires c < |chunks|
    ensures Joined(chunks[..c + 1]) == Joined(chunks[..c]) + chunks[c] && |Joined(chunks[..c + 1])| <= |Joined(chunks)|
    decreases |chunks|
  {
    var m := |chunks| - 1;
    assert chunks[..c + 1][..c] == chunks[..c];
    if c < m {
      JoinedMore(chunks[..m], c);
      assert chunks[..m][..c + 1] == chunks[..c + 1] && chunks[..m][..c] == chunks[..c];
    } else {
      assert chunks[..c + 1] == chunks;
    }
  }

  lemma NextContents(ninodes: nat, args: seq<Arg>, k: nat)
    requires k < |args| && |args| + 2 <= ninodes <= 0x1_0000
    ensures var was, all := Contents(ninodes, args[..k]), Contents(ninodes, args[..k + 1]);
      && RootBytes(args[..k + 1]) == was[ROOTINO] + Entry(k + 2, NameOf(args[k]))
      && was[k + 2] == [] && all == was[ROOTINO := RootBytes(args[..k + 1])][k + 2 := Joined(args[k].chunks)]
      && forall i | 0 <= i < ninodes :: |was[i]| <= |all[i]|
  {
    hide MakeEntry;
    assert args[..k + 1][..k] == args[..k];
  }

  lemma ContentsGrow(ninodes: nat, args: seq<Arg>, k: nat)
    requires k <= |args| && |args| + 2 <= ninodes <= 0x1_0000
    ensures forall i | 0 <= i < ninodes :: |Contents(ninodes, args[..k])[i]| <= |Contents(ninodes, args)[i]|
  {
    hide MakeEntry;
    var some, all := Contents(ninodes, args[..k]), Contents(ninodes, args);
    forall i | 0 <= i < ninodes
      ensures |some[i]| <= |all[i]|
    {
      if 2 <= i < k + 2 {
        assert args[..k][i - 2] == args[i - 2];
      }
    }
  }

  /** main of mkfs up to the size of the root. */
  method MakeImage(size: nat, nlog: nat, ninodes: nat, args: seq<Arg>) returns (ok: bool, img: Image)
    requires Nmeta(size, nlog, ninodes) <= size <= 0x7fff_ffff - BPB && Nmeta(size, nlog, ninodes) <= BPB
    requires |args| + 2 <= ninodes <= 0x1_0000
    ensures fresh(img) && |img.mem| == ninodes && img.sb == MkSb(size, nlog, ninodes)
    ensures ok <==> Fits(img.sb, Contents(ninodes, args))
    ensures ok ==> Built(img, args)
  {
    hide Nmeta, Building, AllMapped, AllTails, SyncedBut, AllExact, Need, FilesOf, Marked, Fits, Data, RootBytes,
         Exclusive, Owns, Contents, LayoutOk;
    img := new Image(size, nlog, ninodes);
    var k := 0;
    ok := MakeRoot(img);
    assert args[..0] == [];
    while ok && k < |args|
      invariant 0 <= k <= |args| && |img.mem| == ninodes
      invariant ok ==> Built(img, args[..k])
      invariant !ok ==> !Fits(img.sb, Contents(ninodes, args[..k]))
    {
      ok := CopyFile(img, args, k);
      k := k + 1;
    }
    assert args[..|args|] == args;
    if ok {
      FitsNow(img);
    } else if Fits(img.sb, Contents(ninodes, args)) {
      ContentsGrow(ninodes, args, k);
      FitsLess(img.sb, Contents(ninodes, args[..k]), Contents(ninodes, args));
    }
  }

  /** main of mkfs, and a mount: it succeeds exactly if the files fit. The kernel then finds the root
      with the names given and each file as it was read, and counts and tree are right, unless the
      root has MAXFILE full blocks; and the file system is sound exactly if the root does not end on
      a block boundary. */
  method Mkfs(size: nat, nlog: nat, ninodes: nat, args: seq<Arg>) returns (ok: bool, fs: FileSys?)
    requires Nmeta(size, nlog, ninodes) <= size <= 0x7fff_ffff - BPB && Nmeta(size, nlog, ninodes) <= BPB
    requires |args| + 2 <= ninodes <= 0x1_0000
    ensures ok <==> FitsBitmap(MkSb(size, nlog, ninodes), Contents(ninodes, args))
    ensures ok ==> fs != null && fresh(fs) && fs.Ok() && Mounted(fs, Contents(ninodes, args), ROOTINO)
    ensures ok ==> |fs.mem| == ninodes && InUse(fs.mem, |args| + 2)
    ensures ok ==> (Sound(fs) <==> DIRENT * (|args| + 2) % BSIZE != 0)
    ensures ok && NamesOk(args) && DIRENT * (|args| + 2) < MAXBYTES ==> Val(fs.disk, fs.mem, RootShape(args))
  {
    hide Nmeta, Building, SyncedBut, AllExact, Need, FilesOf, Marked, Fits, Data, RootBytes, RoundedUp, Settled,
         Exclusive, Owns, Val, NamesOk, Contents, LayoutOk;
    fs := null;
    var img;
    ok, img := MakeImage(size, nlog, ninodes, args);
    if !ok {
      return;
    }
    ghost var mem0 := img.mem;
    assert Contents(ninodes, args)[ROOTINO] == RootBytes(args) by { RootContents(ninodes, args); }
    ok, fs := Finish(img, ROOTINO);
    if ok {
      StillInUse(mem0, fs.mem, |args| + 2);
      if NamesOk(args) && DIRENT * (|args| + 2) < MAXBYTES {
        RootData(fs.disk, fs.mem, args);
      }
    }
  }

  lemma RootContents(ninodes: nat, args: seq<Arg>)
    requires |args| + 2 <= ninodes <= 0x1_0000
    ensures Contents(ninodes, args)[ROOTINO] == RootBytes(args)
  {
  }

  lemma StillInUse(mem: seq<Inode>, mem': seq<Inode>, n: nat)
    requires InUse(mem, n) && Resized(mem, mem', ROOTINO)
    ensures InUse(mem', n)
  {
  }

  /** How many entries of zeros follow n entries once the size is rounded up. */
  lemma Padding(n: nat) returns (k: nat)
    ensures DIRENT * k == BSIZE - DIRENT * n % BSIZE
  {
    k := (BSIZE - DIRENT * n % BSIZE) / DIRENT;
  }

  lemma RootData(disk: seq<Block>, mem: seq<Inode>, args: seq<Arg>)
    requires SizesOk(mem) && |args| + 2 <= |mem| <= 0x1_0000 && InUse(mem, |args| + 2) && NamesOk(args)
    requires FilesOf(disk, mem) == Contents(|mem|, args)[ROOTINO := RoundedUp(RootBytes(args))]
    ensures Val(disk, mem, RootShape(args))
  {
    hide Data, RootBytes, Val, NamesOk, InUse, Contents;
    assert Data(disk, mem, ROOTINO) == FilesOf(disk, mem)[ROOTINO];
    hide FilesOf, SizesOk;
    var k := Padding(|args| + 2);
    MadeVal(disk, mem, args, k);
  }
}
