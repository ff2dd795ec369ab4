/** Directories: files of 16-byte entries, read and written with readi and writei, as finite maps
    from names of at most DIRSIZ bytes to inode numbers. A C string is the sequence of its bytes
    without the terminator. */
module Directories {
  import opened Blocks
  import opened Bitmap
  import opened Ownership
  import opened Inodes
  import opened FileView
  import opened FileSystem
  import opened FileRuns
  import opened InodeCache

  const DIRSIZ: nat := 14
  const DIRENT: nat := 16            // sizeof(struct dirent)

  type Name = seq<byte>

  // ---------------------------------------------------------------- strings

  ghost predicate CString(s: seq<byte>)
  {
    forall i | 0 <= i < |s| :: s[i] != 0
  }

  /** s[i] of a terminated string. */
  function CharAt(s: seq<byte>, i: nat): byte
  {
    if i < |s| then s[i] else 0
  }

  /** The string a fixed field holds: up to the first NUL, or all of it. */
  function FieldName(f: seq<byte>): (r: Name)
    ensures CString(r) && |r| <= |f|
  {
    if |f| == 0 || f[0] == 0 then [] else [f[0]] + FieldName(f[1..])
  }

  function Trunc(name: seq<byte>): Name
  {
    if |name| <= DIRSIZ then name else name[..DIRSIZ]
  }

  function Padded(name: seq<byte>): (r: seq<byte>)
    ensures |r| == DIRSIZ
  {
    Trunc(name) + Zeros(DIRSIZ - |Trunc(name)|)
  }

  lemma {:induction false} FieldOfPadded(name: seq<byte>, k: nat)
    requires CString(name)
    ensures FieldName(name + Zeros(k)) == name
  {
    if name != [] {
      FieldOfPadded(name[1..], k);
      assert (name + Zeros(k))[1..] == name[1..] + Zeros(k);
    }
  }

  /** strncpy into the name field. */
  method Strncpy(t: seq<byte>) returns (s: seq<byte>)
    requires CString(t)
    ensures s == Padded(t)
  {
    var n := DIRSIZ;
    s := [];
    var more := true;
    while n > 0 && more
      invariant 0 <= n <= DIRSIZ && |s| == DIRSIZ - n
      invariant more ==> |s| <= |t| && s == t[..|s|]
      invariant !more ==> |s| == |t| + 1 && s == t + [0]
    {
      s, more, n := s + [CharAt(t, |s|)], CharAt(t, |s|) != 0, n - 1;
    }
    while n > 0
      invariant 0 <= n <= DIRSIZ && |s| == DIRSIZ - n
      invariant n > 0 ==> |t| < |s| && s == t + Zeros(|s| - |t|)
      invariant n == 0 ==> s == Padded(t)
    {
      s, n := s + [0], n - 1;
    }
  }

  /** strncmp of a name with a name field: 0 exactly when the field holds the truncated name. */
  method Namecmp(p: seq<byte>, q: seq<byte>) returns (r: int)
    requires CString(p) && |q| == DIRSIZ
    ensures r == 0 <==> Trunc(p) == FieldName(q)
  {
    var i := 0;
    while i < DIRSIZ && CharAt(p, i) != 0 && CharAt(p, i) == CharAt(q, i)
      invariant 0 <= i <= DIRSIZ && i <= |p|
      invariant forall k | 0 <= k < i :: p[k] == q[k]
    {
      i := i + 1;
    }
    FieldPrefix(q, i, p);
    if i == DIRSIZ {
      return 0;
    }
    r := CharAt(p, i) - CharAt(q, i);
  }

  /** How far a field and a string agree decides whether the field holds the string. */
  lemma {:induction false} FieldPrefix(q: seq<byte>, i: nat, p: seq<byte>)
    requires CString(p) && i <= |q| && i <= |p| && (forall k | 0 <= k < i :: p[k] == q[k])
    requires i < |q| ==> CharAt(p, i) == 0 || CharAt(p, i) != CharAt(q, i)
    ensures (if |p| <= |q| then p else p[..|q|]) == FieldName(q) <==> i == |q| || CharAt(p, i) == CharAt(q, i)
    decreases i
  {
    if i == 0 {
    } else {
      assert p[0] == q[0];
      FieldPrefix(q[1..], i - 1, p[1..]);
      var a, b := (if |p| <= |q| then p else p[..|q|]), (if |p| <= |q| then p[1..] else p[1..][..|q| - 1]);
      assert a == [p[0]] + b;
      assert FieldName(q) == [q[0]] + FieldName(q[1..]);
      assert a == FieldName(q) ==> b == FieldName(q)[1..] == FieldName(q[1..]);
    }
  }

  // ---------------------------------------------------------------- entries

  /** Where a name is linked: the inode number and the index of the entry. */
  datatype Slot = Slot(inum: nat, at: nat)

  function EntryAt(data: seq<byte>, i: nat): (r: seq<byte>)
    requires DIRENT * i + DIRENT <= |data|
    ensures |r| == DIRENT
  {
    data[DIRENT * i..DIRENT * i + DIRENT]
  }

  function InumIn(de: seq<byte>): nat
    requires |de| == DIRENT
  {
    (de[0] as int) + 0x100 * (de[1] as int)
  }

  function NameIn(de: seq<byte>): Name
    requires |de| == DIRENT
  {
    FieldName(de[2..])
  }

  function MakeEntry(inum: nat, field: seq<byte>): (r: seq<byte>)
    requires inum < 0x1_0000 && |field| == DIRSIZ
    ensures |r| == DIRENT && InumIn(r) == inum && NameIn(r) == FieldName(field)
  {
    var r := [inum % 0x100, inum / 0x100] + field;
    assert r[2..] == field;
    r
  }

  ghost predicate Whole(data: seq<byte>)
  {
    |data| % DIRENT == 0
  }

  /** The directory data is the map m: each name of m is in the entry m gives, and each used entry
      is one that m gives. So no name is in two used entries. */
  ghost predicate DirIs(data: seq<byte>, m: map<Name, Slot>)
  {
    && Whole(data)
    && (forall k | k in m ::
          && m[k].at < |data| / DIRENT && 0 < m[k].inum < 0x1_0000
          && NameIn(EntryAt(data, m[k].at)) == k && InumIn(EntryAt(data, m[k].at)) == m[k].inum)
    && (forall i | 0 <= i < |data| / DIRENT && InumIn(EntryAt(data, i)) != 0 ::
          var k := NameIn(EntryAt(data, i));
          k in m && m[k].at == i)
  }

  lemma SplicedEntry(data: seq<byte>, i: nat, de: seq<byte>, j: nat)
    requires Whole(data) && i <= |data| / DIRENT && |de| == DIRENT
    ensures var now := Spliced(data, DIRENT * i, de);
      && Whole(now) && |now| / DIRENT == (if i == |data| / DIRENT then i + 1 else |data| / DIRENT)
      && (j < |now| / DIRENT ==> EntryAt(now, j) == if j == i then de else EntryAt(data, j))
  {
    var now := Spliced(data, DIRENT * i, de);
    if i == |data| / DIRENT {
      assert now == data + de;
    }
    if j < |now| / DIRENT {
      if j == i {
        assert EntryAt(now, j) == de;
      } else {
        assert EntryAt(now, j) == EntryAt(data, j);
      }
    }
  }

  /** Filling a free entry, or one past the end, adds the name. */
  lemma LinkedIs(data: seq<byte>, m: map<Name, Slot>, i: nat, de: seq<byte>)
    requires DirIs(data, m) && i <= |data| / DIRENT && |de| == DIRENT
    requires i < |data| / DIRENT ==> InumIn(EntryAt(data, i)) == 0
    requires 0 < InumIn(de) < 0x1_0000 && NameIn(de) !in m
    ensures DirIs(Spliced(data, DIRENT * i, de), m[NameIn(de) := Slot(InumIn(de), i)])
  {
    hide NameIn, InumIn, EntryAt, Spliced;
    var now := Spliced(data, DIRENT * i, de);
    SplicedEntry(data, i, de, 0);
    forall j | 0 <= j < |now| / DIRENT
      ensures EntryAt(now, j) == if j == i then de else EntryAt(data, j)
    {
      SplicedEntry(data, i, de, j);
    }
  }

  /** Zeroing the entry of a name removes it. */
  lemma ClearedIs(data: seq<byte>, m: map<Name, Slot>, k: Name, de: seq<byte>)
    requires DirIs(data, m) && k in m && |de| == DIRENT && InumIn(de) == 0
    ensures DirIs(Spliced(data, DIRENT * m[k].at, de), m - {k})
  {
    hide NameIn, InumIn, EntryAt, Spliced;
    var i := m[k].at;
    var now := Spliced(data, DIRENT * i, de);
    SplicedEntry(data, i, de, 0);
    forall j | 0 <= j < |data| / DIRENT
      ensures EntryAt(now, j) == if j == i then de else EntryAt(data, j)
    {
      SplicedEntry(data, i, de, j);
    }
  }

  // ---------------------------------------------------------------- dirlookup and dirlink

  ghost predicate IsDir(fs: FileSys, dp: nat, m: map<Name, Slot>)
    reads fs
  {
    Sound(fs) && dp < |fs.mem| && fs.mem[dp].kind == T_DIR && DirIs(Data(fs.disk, fs.mem, dp), m)
  }

  /** `readi(dp, &de, off, sizeof(de))` inside the directory. */
  method ReadEntry(fs: FileSys, dp: nat, i: nat, ghost m: map<Name, Slot>) returns (de: seq<byte>)
    requires IsDir(fs, dp, m) && DIRENT * i < fs.mem[dp].size
    modifies fs
    ensures fs.disk == old(fs.disk) && fs.mem == old(fs.mem) && IsDir(fs, dp, m)
    ensures i < |Data(fs.disk, fs.mem, dp)| / DIRENT && de == EntryAt(Data(fs.disk, fs.mem, dp), i)
  {
    hide Owns, AllMapped, AllTails, SyncedBut, Bytes, NameIn, InumIn;
    ghost var data := Data(fs.disk, fs.mem, dp);
    assert |data| <= MAXBYTES && FilesOf(fs.disk, fs.mem)[dp] == data;
    var r := DoRead(fs, dp, DIRENT * i, DIRENT);
    assert r == Got(data[DIRENT * i..DIRENT * i + DIRENT]);
    de := r.bytes;
  }

  /** The scan of dirlookup: found exactly when the map has the truncated name, with its inode number
      and the byte offset of its entry. Nothing changes. */
  method FindName(fs: FileSys, dp: nat, name: seq<byte>, ghost m: map<Name, Slot>)
    returns (found: bool, inum: nat, off: nat)
    requires IsDir(fs, dp, m) && CString(name)
    modifies fs
    ensures fs.disk == old(fs.disk) && fs.mem == old(fs.mem) && IsDir(fs, dp, m)
    ensures found <==> Trunc(name) in m
    ensures found ==> inum == m[Trunc(name)].inum && off == DIRENT * m[Trunc(name)].at
  {
    hide Sound, EntryAt, Trunc, Data;
    DataLength(fs, dp, m);
    var i := 0;
    off := 0;
    while off < fs.mem[dp].size
      invariant off == DIRENT * i && fs.disk == old(fs.disk) && fs.mem == old(fs.mem) && IsDir(fs, dp, m)
      invariant Trunc(name) in m ==> m[Trunc(name)].at >= i
    {
      var de := ReadEntry(fs, dp, i, m);
      if InumIn(de) != 0 {
        var c := Namecmp(name, de[2..]);
        if c == 0 {
          return true, InumIn(de), off;
        }
      }
      i, off := i + 1, off + DIRENT;
    }
    return false, 0, 0;
  }

  datatype Looked = LookPanic | LookNothing | LookFound(slot: nat)

  /** dirlookup: found exactly when the map has the truncated name, with its inode number, the byte
      offset of its entry and one more reference on it. It panics for want of a slot. */
  method Dirlookup(ic: Icache, dp: nat, name: seq<byte>, ghost m: map<Name, Slot>)
    returns (r: Looked, inum: nat, off: nat)
    requires IsDir(ic.fs, dp, m) && CString(name) && ic.Ok()
    modifies ic, ic.fs
    ensures ic.fs.disk == old(ic.fs.disk) && ic.fs.mem == old(ic.fs.mem) && IsDir(ic.fs, dp, m) && ic.Ok()
    ensures r.LookNothing? <==> Trunc(name) !in m
    ensures !r.LookFound? ==> ic.slots == old(ic.slots) && ic.at == old(ic.at)
    ensures r.LookPanic? ==> CacheFull(ic) && m[Trunc(name)].inum !in ic.Refs()
    ensures r.LookFound? ==> inum == m[Trunc(name)].inum && off == DIRENT * m[Trunc(name)].at
    ensures r.LookFound? ==>
              && ic.Refs() == Plus(old(ic.Refs()), inum, r.slot) && InPlace(old(ic.Refs()), inum, r.slot)
              && ic.Locks() == old(ic.Locks())
  {
    hide Sound, Data, DirIs, Trunc, Indexed, LocksIn, Plus;
    var found;
    found, inum, off := FindName(ic.fs, dp, name, m);
    if !found {
      return LookNothing, 0, 0;
    }
    var ok, s := ic.Iget(inum);
    if !ok {
      return LookPanic, 0, 0;
    }
    r := LookFound(s);
  }

  lemma DataLength(fs: FileSys, dp: nat, m: map<Name, Slot>)
    requires IsDir(fs, dp, m)
    ensures fs.mem[dp].size <= MAXBYTES && |Data(fs.disk, fs.mem, dp)| == fs.mem[dp].size
  {
    hide Owns, AllMapped, AllTails, SyncedBut, DirIs;
  }

  datatype Linked = LinkPanic | LinkExists | LinkDone

  /** The second loop of dirlink: the first free entry, or the end. */
  method FindFree(fs: FileSys, dp: nat, ghost m: map<Name, Slot>) returns (i: nat)
    requires IsDir(fs, dp, m)
    modifies fs
    ensures fs.disk == old(fs.disk) && fs.mem == old(fs.mem) && IsDir(fs, dp, m)
    ensures FreeAt(Data(fs.disk, fs.mem, dp), i)
  {
    hide Sound, EntryAt, Data, NameIn;
    DataLength(fs, dp, m);
    i := 0;
    while DIRENT * i < fs.mem[dp].size
      invariant fs.disk == old(fs.disk) && fs.mem == old(fs.mem) && IsDir(fs, dp, m) && i <= fs.mem[dp].size / DIRENT
      decreases fs.mem[dp].size - DIRENT * i
    {
      var de := ReadEntry(fs, dp, i, m);
      if InumIn(de) == 0 {
        return;
      }
      i := i + 1;
    }
  }

  /** A write of one entry, seen by the directory and by the other files. */
  method WriteEntry(fs: FileSys, dp: nat, i: nat, de: seq<byte>, ghost m: map<Name, Slot>) returns (ok: bool)
    requires IsDir(fs, dp, m) && i <= fs.mem[dp].size / DIRENT && |de| == DIRENT
    modifies fs
    ensures fs.Ok() && |fs.mem| == old(|fs.mem|)
    ensures !ok ==> fs.Full() || old(fs.mem[dp].size) + DIRENT > MAXBYTES
    ensures i < old(fs.mem[dp].size) / DIRENT ==> ok
    ensures ok ==> Sound(fs) && SameKinds(old(fs.mem), fs.mem, dp)
    ensures ok ==>
              FilesOf(fs.disk, fs.mem) == old(FilesOf(fs.disk,
                                                      fs.mem)[dp := Spliced(Data(fs.disk, fs.mem, dp), DIRENT * i, de)])
  {
    hide AllTails, SyncedBut, BitsMatch, OwnersRight, RefsOwned, DirIs, Spliced, Data, Bit, KeepsRefs, OthersSame,
         NoHoles;
    ghost var disk0, mem0 := fs.disk, fs.mem;
    var r := fs.Writei(dp, DIRENT * i, de);
    ok := r.WriteDone?;
    if ok {
      WriteSettles(fs.sb, disk0, mem0, fs.disk, fs.mem, dp, DIRENT * i, de);
      OthersKeep(disk0, mem0, fs.disk, fs.mem, dp);
    }
  }

  /** Writing data into dp changes no inode field other than size and addresses of dp. */
  ghost predicate SameKinds(mem: seq<Inode>, mem': seq<Inode>, dp: nat)
  {
    && |mem'| == |mem| && dp < |mem|
    && mem'[dp] == mem[dp].(size := mem'[dp].size, addrs := mem'[dp].addrs)
    && forall g | 0 <= g < |mem| && g != dp :: mem'[g] == mem[g]
  }

  /** Entry i is free, or one past the end. */
  ghost predicate FreeAt(data: seq<byte>, i: nat)
  {
    Whole(data) && i <= |data| / DIRENT && (i < |data| / DIRENT ==> InumIn(EntryAt(data, i)) == 0)
  }

  /** One entry of file dp was overwritten by one that holds inum; no other file changed. */
  ghost predicate EntryWritten(files: seq<seq<byte>>, files': seq<seq<byte>>, dp: nat, at: nat, inum: nat)
  {
    exists de: seq<byte> :: |de| == DIRENT && InumIn(de) == inum && dp < |files| && DIRENT * at <= |files[dp]|
                            && files' == files[dp := Spliced(files[dp], DIRENT * at, de)]
  }

  lemma WritesEntry(files: seq<seq<byte>>, dp: nat, at: nat, de: seq<byte>)
    requires |de| == DIRENT && dp < |files| && DIRENT * at <= |files[dp]|
    ensures EntryWritten(files, files[dp := Spliced(files[dp], DIRENT * at, de)], dp, at, InumIn(de))
  {
    hide Spliced, InumIn;
  }

  /** The inode that has the name, if any, has links or is held: dropping a reference frees nothing. */
  ghost predicate Droppable(ic: Icache, m: map<Name, Slot>, name: seq<byte>)
    requires ic.Ok()
    reads ic, ic.fs
  {
    Trunc(name) in m ==>
      var i := m[Trunc(name)].inum; i < |ic.fs.mem| && (i in ic.Refs() || ic.fs.mem[i].nlink != 0)
  }

  /** dirlink: -1 exactly when the truncated name is there already, and then nothing changes.
      Otherwise the map gains it, with no other name and no other file touched. A panic means a full
      disk, a directory of the largest size, or, for a name that is there, no slot for its inode. */
  method Dirlink(ic: Icache, dp: nat, name: seq<byte>, inum: nat, ghost m: map<Name, Slot>)
    returns (r: Linked, ghost at: nat)
    requires IsDir(ic.fs, dp, m) && CString(name) && 0 < inum < 0x1_0000 && ic.Ok() && Droppable(ic, m, name)
    modifies ic, ic.fs
    ensures ic.fs.Ok() && |ic.fs.mem| == old(|ic.fs.mem|) && ic.Ok()
    ensures Trunc(name) !in m ==> ic.slots == old(ic.slots) && ic.at == old(ic.at)
    ensures !r.LinkPanic? ==> ic.Refs() == old(ic.Refs()) && ic.Locks() == old(ic.Locks())
    ensures r.LinkExists? ==> Trunc(name) in m && ic.fs.disk == old(ic.fs.disk) && ic.fs.mem == old(ic.fs.mem)
    ensures r.LinkDone? ==> Trunc(name) !in m
    ensures r.LinkPanic? ==>
              if Trunc(name) in m then CacheFull(ic)
              else ic.fs.Full() || old(ic.fs.mem[dp].size) + DIRENT > MAXBYTES
    ensures r.LinkDone? ==>
              SameKinds(old(ic.fs.mem), ic.fs.mem, dp) && IsDir(ic.fs, dp, m[Trunc(name) := Slot(inum, at)])
    ensures r.LinkDone? ==> FreeAt(old(Data(ic.fs.disk, ic.fs.mem, dp)), at)
    ensures r.LinkDone? ==>
              EntryWritten(old(FilesOf(ic.fs.disk, ic.fs.mem)), FilesOf(ic.fs.disk, ic.fs.mem), dp, at, inum)
  {
    hide Owns, AllMapped, AllTails, SyncedBut, Trunc, Data, DirIs, FilesOf, FreeAt, EntryWritten, Indexed, LocksIn,
         RefsIn, Freed;
    at := 0;
    var look, ip, _ := Dirlookup(ic, dp, name, m);
    if look.LookPanic? {
      return LinkPanic, 0;
    }
    if look.LookFound? {
      PlusMinus(old(ic.Refs()), ip, look.slot);
      LockHeld(ic.slots, ic.at, old(ic.slots), old(ic.at), ip, look.slot);
      ic.Iput(look.slot, ip);
      return LinkExists, 0;
    }
    r, at := AddEntry(ic.fs, dp, name, inum, m);
  }

  /** A locked inode is referenced; with one reference more it has two. */
  lemma LockHeld(now: seq<CacheSlot>, at: map<nat, nat>, was: seq<CacheSlot>, at0: map<nat, nat>, i: nat, s: nat)
    requires Indexed(now, at) && Indexed(was, at0) && RefsIn(now, at) == Plus(RefsIn(was, at0), i, s)
    requires LocksIn(now, at) == LocksIn(was, at0)
    ensures i in LocksIn(now, at) ==> RefsIn(now, at)[i].count > 1
  {
  }

  /** dirlink once the name is known not to be there. */
  method AddEntry(fs: FileSys, dp: nat, name: seq<byte>, inum: nat, ghost m: map<Name, Slot>)
    returns (r: Linked, ghost at: nat)
    requires IsDir(fs, dp, m) && CString(name) && 0 < inum < 0x1_0000 && Trunc(name) !in m
    modifies fs
    ensures fs.Ok() && |fs.mem| == old(|fs.mem|) && !r.LinkExists?
    ensures r.LinkPanic? ==> fs.Full() || old(fs.mem[dp].size) + DIRENT > MAXBYTES
    ensures r.LinkDone? ==> SameKinds(old(fs.mem), fs.mem, dp) && IsDir(fs, dp, m[Trunc(name) := Slot(inum, at)])
    ensures r.LinkDone? ==> FreeAt(old(Data(fs.disk, fs.mem, dp)), at)
    ensures r.LinkDone? ==> EntryWritten(old(FilesOf(fs.disk, fs.mem)), FilesOf(fs.disk, fs.mem), dp, at, inum)
  {
    hide EntryAt, Trunc, Data, NameIn, InumIn, Spliced, AllMapped, AllTails, SyncedBut, BitsMatch, OwnersRight,
         RefsOwned, DirIs, Padded, FieldName, MakeEntry;
    DataLength(fs, dp, m);
    var i := FindFree(fs, dp, m);
    var field := Strncpy(name);
    var de := MakeEntry(inum, field);
    PaddedName(name);
    LinkedIs(Data(fs.disk, fs.mem, dp), m, i, de);
    ghost var files := FilesOf(fs.disk, fs.mem);
    WritesEntry(files, dp, i, de);
    hide EntryWritten;
    var ok := WriteEntry(fs, dp, i, de, m);
    r := if ok then LinkDone else LinkPanic;
    at := i;
  }

  lemma PaddedName(name: seq<byte>)
    requires CString(name)
    ensures FieldName(Padded(name)) == Trunc(name)
  {
    FieldOfPadded(Trunc(name), DIRSIZ - |Trunc(name)|);
  }

  /** Clearing the entry that dirlookup found, as sys_unlink does. Its panic is silent: the entry
      lies inside the directory, so no block is needed. */
  method ClearEntry(fs: FileSys, dp: nat, off: nat, k: Name, ghost m: map<Name, Slot>)
    requires IsDir(fs, dp, m) && k in m && off == DIRENT * m[k].at
    modifies fs
    ensures SameKinds(old(fs.mem), fs.mem, dp) && IsDir(fs, dp, m - {k})
    ensures EntryWritten(old(FilesOf(fs.disk, fs.mem)), FilesOf(fs.disk, fs.mem), dp, m[k].at, 0)
  {
    hide EntryAt, Data, NameIn, Spliced, AllMapped, AllTails, SyncedBut, BitsMatch, OwnersRight, RefsOwned, FieldName;
    DataLength(fs, dp, m);
    var de := Zeros(DIRENT);
    ClearedIs(Data(fs.disk, fs.mem, dp), m, k, de);
    var ok := WriteEntry(fs, dp, off / DIRENT, de, m);
    assert ok;
  }
}
