/** Path names: skipelem takes a path apart, namex walks it. */
module Paths {
  import opened Blocks
  import opened Ownership
  import opened Inodes
  import opened FileView
  import opened FileSystem
  import opened FileRuns
  import opened Directories
  import opened InodeCache

  const SLASH: byte := 47

  // ---------------------------------------------------------------- components

  /** The pieces between slashes, empty ones included. */
  function Split(path: seq<byte>): (r: seq<Name>)
    ensures |r| >= 1
  {
    if path == [] then [[]]
    else
      var t := Split(path[1..]);
      if path[0] == SLASH then [[]] + t else [[path[0]] + t[0]] + t[1..]
  }

  function NonEmpty(parts: seq<Name>): seq<Name>
  {
    if parts == [] then [] else (if parts[0] == [] then [] else [parts[0]]) + NonEmpty(parts[1..])
  }

  /** The non-empty slash-separated components. */
  function Components(path: seq<byte>): seq<Name>
  {
    NonEmpty(Split(path))
  }

  lemma SkipSlash(path: seq<byte>)
    requires path != [] && path[0] == SLASH
    ensures Components(path) == Components(path[1..])
  {
    assert Split(path)[1..] == Split(path[1..]);
  }

  lemma {:induction false} SplitElem(elem: seq<byte>, rest: seq<byte>)
    requires SLASH !in elem
    ensures Split(elem + rest) == [elem + Split(rest)[0]] + Split(rest)[1..]
  {
    if elem == [] {
      var t := Split(rest);
      assert elem + rest == rest && elem + t[0] == t[0] && t == [t[0]] + t[1..];
    } else {
      SplitElem(elem[1..], rest);
      assert (elem + rest)[1..] == elem[1..] + rest;
      assert [elem[0]] + (elem[1..] + Split(rest)[0]) == elem + Split(rest)[0];
    }
  }

  lemma FirstComponent(elem: seq<byte>, rest: seq<byte>)
    requires SLASH !in elem && elem != [] && (rest == [] || rest[0] == SLASH)
    ensures Components(elem + rest) == [elem] + Components(rest)
  {
    SplitElem(elem, rest);
    assert Split(rest)[0] == [];
    assert elem + Split(rest)[0] == elem;
    assert Split(elem + rest)[1..] == Split(rest)[1..];
    assert NonEmpty(Split(rest)) == NonEmpty(Split(rest)[1..]);
  }

  /** `while(*path == '/') path++`. */
  method SkipSlashes(path: seq<byte>) returns (rest: seq<byte>)
    requires CString(path)
    ensures CString(rest) && |rest| <= |path| && Components(rest) == Components(path)
    ensures rest != [] ==> rest[0] != SLASH && Components(rest) != []
  {
    rest := path;
    while rest != [] && rest[0] == SLASH
      invariant CString(rest) && |rest| <= |path| && Components(rest) == Components(path)
      decreases |rest|
    {
      SkipSlash(rest);
      rest := rest[1..];
    }
    if rest != [] {
      SomeComponent(rest);
    }
  }

  lemma SomeComponent(path: seq<byte>)
    requires path != [] && path[0] != SLASH
    ensures Components(path) != []
  {
    assert Split(path)[0] != [];
  }

  /** skipelem: the first component, cut to DIRSIZ, and the path after it without leading slashes;
      nothing exactly when there is no component. */
  method Skipelem(path: seq<byte>) returns (more: bool, rest: seq<byte>, name: Name)
    requires CString(path)
    ensures more <==> Components(path) != []
    ensures more ==> name == Trunc(Components(path)[0]) && CString(name) && CString(rest)
    ensures more ==> Components(rest) == Components(path)[1..] && |rest| < |path|
    ensures more ==> (rest == [] <==> |Components(path)| == 1)
  {
    hide Components;
    var s := SkipSlashes(path);
    if s == [] {
      assert Components([]) == [] by { NoComponents(); }
      return false, [], [];
    }
    var len := 0;
    while len < |s| && s[len] != SLASH
      invariant 0 <= len <= |s| && SLASH !in s[..len]
    {
      len := len + 1;
    }
    assert s == s[..len] + s[len..] && CString(s[..len]);
    FirstComponent(s[..len], s[len..]);
    name := if len >= DIRSIZ then s[..DIRSIZ] else s[..len];
    rest := SkipSlashes(s[len..]);
    assert rest == [] ==> Components(rest) == [] by { NoComponents(); }
    more := true;
  }

  lemma NoComponents()
    ensures Components([]) == []
  {
    assert Split([])[1..] == [];
  }

  // ---------------------------------------------------------------- walking

  /** The directories of the file system, each as its map. */
  type Tree = map<nat, map<Name, Slot>>

  datatype Option = None | Some(inum: nat)

  /** Following names one by one. */
  ghost function Walk(tree: Tree, ip: nat, parts: seq<Name>): Option
    decreases |parts|
  {
    if parts == [] then Some(ip)
    else if ip !in tree || Trunc(parts[0]) !in tree[ip] then None
    else Walk(tree, tree[ip][Trunc(parts[0])].inum, parts[1..])
  }

  /** What namex returns: the inode of the path, or that of its parent directory. */
  ghost function Target(tree: Tree, ip: nat, parts: seq<Name>, parent: bool): Option
    decreases |parts|
  {
    if parts == [] then (if parent then None else Some(ip))
    else if ip !in tree then None
    else if parent && |parts| == 1 then Some(ip)
    else if Trunc(parts[0]) !in tree[ip] then None
    else Target(tree, tree[ip][Trunc(parts[0])].inum, parts[1..], parent)
  }

  lemma {:induction false} TargetIsWalk(tree: Tree, ip: nat, parts: seq<Name>)
    ensures Target(tree, ip, parts, false) == Walk(tree, ip, parts)
    decreases |parts|
  {
    if parts != [] && ip in tree && Trunc(parts[0]) in tree[ip] {
      TargetIsWalk(tree, tree[ip][Trunc(parts[0])].inum, parts[1..]);
    }
  }

  /** The parent of a path is where all its components but the last lead, if that is a directory. */
  lemma {:induction false} ParentIsWalk(tree: Tree, ip: nat, parts: seq<Name>)
    requires parts != []
    ensures var d := Walk(tree, ip, parts[..|parts| - 1]);
      Target(tree, ip, parts, true) == if d.Some? && d.inum in tree then d else None
    decreases |parts|
  {
    if |parts| > 1 && ip in tree && Trunc(parts[0]) in tree[ip] {
      ParentIsWalk(tree, tree[ip][Trunc(parts[0])].inum, parts[1..]);
      assert parts[1..][..|parts| - 2] == parts[..|parts| - 1][1..];
    }
  }

  /** The walk of namex comes to a free inode with names still to follow: ilock finds no type. Only
      the ".." of a removed directory can lead there. */
  ghost predicate Stuck(mem: seq<Inode>, tree: Tree, ip: nat, parts: seq<Name>, parent: bool)
    decreases |parts|
  {
    && parts != []
    && ((ip < |mem| && mem[ip].kind == 0)
        || (ip in tree && !(parent && |parts| == 1) && Trunc(parts[0]) in tree[ip]
            && Stuck(mem, tree, tree[ip][Trunc(parts[0])].inum, parts[1..], parent)))
  }

  /** The tree holds the map of each directory, and what a linked directory names has links. */
  ghost predicate TreeOf(disk: seq<Block>, mem: seq<Inode>, tree: Tree)
  {
    && SizesOk(mem)
    && (forall i | 0 <= i < |mem| && mem[i].nlink != 0 :: mem[i].kind != 0)
    && (forall d | d in tree :: forall k | k in tree[d] :: tree[d][k].inum < |mem|)
    && (forall d | d in tree :: d < |mem| && mem[d].kind == T_DIR && DirIs(Data(disk, mem, d), tree[d]))
    && (forall d | 0 <= d < |mem| && mem[d].kind == T_DIR :: d in tree)
    && (forall d | d in tree && mem[d].nlink != 0 :: NamesKnown(mem, tree, d))
  }

  /** What d names has links, or is d. */
  ghost predicate NamesKnown(mem: seq<Inode>, tree: Tree, d: nat)
  {
    d in tree ==> forall k | k in tree[d] :: tree[d][k].inum == d || Known(mem, tree[d][k].inum)
  }

  ghost predicate TreeIs(fs: FileSys, tree: Tree)
    reads fs
  {
    Sound(fs) && TreeOf(fs.disk, fs.mem, tree)
  }

  ghost predicate Known(mem: seq<Inode>, i: nat)
  {
    i < |mem| && mem[i].nlink != 0
  }

  /** An inode in use without links is held by somebody. */
  ghost predicate OrphansHeld(mem: seq<Inode>, refs: map<nat, Ref>)
  {
    forall i | 0 <= i < |mem| && mem[i].kind != 0 && mem[i].nlink == 0 :: i in refs
  }

  lemma NextInRange(disk: seq<Block>, mem: seq<Inode>, tree: Tree, d: nat, k: Name)
    requires TreeOf(disk, mem, tree) && d in tree && k in tree[d]
    ensures tree[d][k].inum < |mem|
  {
    hide DirIs, Data;
  }

  lemma TreeDir(fs: FileSys, tree: Tree, d: nat)
    requires TreeIs(fs, tree) && d < |fs.mem|
    ensures d in tree <==> fs.mem[d].kind == T_DIR
    ensures d in tree ==> IsDir(fs, d, tree[d])
  {
    hide DirIs, Data, AllMapped, AllTails, SyncedBut, Owns;
  }

  datatype Found = FoundPanic | FoundNothing | FoundAt(slot: nat)

  /** One reference on i beyond refs. */
  ghost predicate Reached(ic: Icache, refs: map<nat, Ref>, s: nat, i: nat)
    reads ic, ic.fs
  {
    && ic.Ok() && ic.Refs() == Plus(refs, i, s) && InPlace(refs, i, s) && ic.Locks() == {}
    && i < |ic.fs.mem|
  }

  /** ... and dropping it frees nothing. */
  ghost predicate Extra(ic: Icache, refs: map<nat, Ref>, s: nat, i: nat)
    reads ic, ic.fs
  {
    Reached(ic, refs, s, i) && (i in refs || ic.fs.mem[i].nlink != 0)
  }

  ghost predicate AllHeld(refs: map<nat, Ref>)
  {
    forall j | j in refs :: refs[j].count > 0
  }

  /** iput of that extra reference. */
  method Drop(ic: Icache, s: nat, i: nat, ghost refs: map<nat, Ref>)
    requires Sound(ic.fs) && Extra(ic, refs, s, i) && AllHeld(refs)
    modifies ic, ic.fs
    ensures ic.Ok() && ic.Refs() == refs && ic.Locks() == {}
    ensures Sound(ic.fs) && ic.fs.disk == old(ic.fs.disk) && ic.fs.mem == old(ic.fs.mem)
  {
    hide Sound, Indexed, RefsIn, LocksIn, Freed;
    PlusMinus(refs, i, s);
    ic.Iput(s, i);
  }

  datatype Step = StepPanic | StepNothing | StepStop | StepTo(slot: nat)

  /** One turn of the loop of namex, from the locked look at ip to the next inode. */
  method WalkStep(ic: Icache, s: nat, i: nat, name: Name, stop: bool, ghost refs: map<nat, Ref>, ghost tree: Tree)
    returns (r: Step, next: nat)
    requires TreeIs(ic.fs, tree) && Reached(ic, refs, s, i) && CString(name) && AllHeld(refs)
             && OrphansHeld(ic.fs.mem, refs)
    modifies ic, ic.fs
    ensures TreeIs(ic.fs, tree) && ic.fs.disk == old(ic.fs.disk) && ic.fs.mem == old(ic.fs.mem)
    ensures r.StepPanic? ==> CacheFull(ic) || ic.fs.mem[i].kind == 0
    ensures !r.StepPanic? ==> ic.fs.mem[i].kind != 0
    ensures r.StepNothing? ==> ic.Ok() && ic.Refs() == refs && ic.Locks() == {}
    ensures r.StepNothing? ==> i !in tree || (!stop && Trunc(name) !in tree[i])
    ensures r.StepStop? ==> stop && i in tree && Extra(ic, refs, s, i)
    ensures r.StepTo? ==> !stop && i in tree && Trunc(name) in tree[i]
    ensures r.StepTo? ==> next == tree[i][Trunc(name)].inum && Reached(ic, refs, r.slot, next)
  {
    hide Sound, Indexed, RefsIn, LocksIn, Freed, Minus, DirIs, Data, Trunc, TreeOf;
    next := 0;
    TreeDir(ic.fs, tree, i);
    var ok := ic.Ilock(s, i);
    if !ok {
      return StepPanic, 0;
    }
    if ic.fs.mem[i].kind != T_DIR {
      ic.Iunlock(s, i);
      Drop(ic, s, i, refs);
      return StepNothing, 0;
    }
    if stop {
      ic.Iunlock(s, i);
      return StepStop, 0;
    }
    r, next := Descend(ic, s, i, name, refs, tree);
  }

  /** The lookup half: dirlookup, then letting go of the directory. */
  method Descend(ic: Icache, s: nat, i: nat, name: Name, ghost refs: map<nat, Ref>, ghost tree: Tree)
    returns (r: Step, next: nat)
    requires TreeIs(ic.fs, tree) && i < |ic.fs.mem| && i in tree && CString(name) && AllHeld(refs)
    requires ic.Ok() && ic.Refs() == Plus(refs, i, s) && InPlace(refs, i, s) && ic.Locks() == {i}
    requires i in refs || ic.fs.mem[i].nlink != 0
    modifies ic, ic.fs
    ensures r.StepPanic? ==> CacheFull(ic)
    ensures TreeIs(ic.fs, tree) && ic.fs.disk == old(ic.fs.disk) && ic.fs.mem == old(ic.fs.mem) && !r.StepStop?
    ensures r.StepNothing? ==> ic.Ok() && ic.Refs() == refs && ic.Locks() == {} && Trunc(name) !in tree[i]
    ensures r.StepTo? ==> Trunc(name) in tree[i] && next == tree[i][Trunc(name)].inum && Reached(ic, refs, r.slot, next)
  {
    hide Sound, Indexed, RefsIn, LocksIn, Freed, Minus, DirIs, Data, Trunc, TreeOf;
    next := 0;
    TreeDir(ic.fs, tree, i);
    var look, inum, _ := Dirlookup(ic, i, name, tree[i]);
    if look.LookPanic? {
      return StepPanic, 0;
    }
    if look.LookNothing? {
      ic.Iunlock(s, i);
      Drop(ic, s, i, refs);
      return StepNothing, 0;
    }
    NextInRange(ic.fs.disk, ic.fs.mem, tree, i, Trunc(name));
    MoveOn(ic, s, look.slot, i, inum, refs);
    return StepTo(look.slot), inum;
  }

  /** iunlockput(ip); ip = next. */
  method MoveOn(ic: Icache, s: nat, t: nat, i: nat, next: nat, ghost refs: map<nat, Ref>)
    requires Sound(ic.fs) && ic.Ok() && AllHeld(refs) && InPlace(refs, i, s) && InPlace(refs, next, t)
             && (i == next ==> s == t)
    requires ic.Refs() == Plus(Plus(refs, i, s), next, t) && ic.Locks() == {i}
    requires i < |ic.fs.mem| && (i in refs || ic.fs.mem[i].nlink != 0)
    requires next < |ic.fs.mem|
    modifies ic, ic.fs
    ensures Reached(ic, refs, t, next)
    ensures Sound(ic.fs) && ic.fs.disk == old(ic.fs.disk) && ic.fs.mem == old(ic.fs.mem)
  {
    hide Sound, Indexed, LocksIn, Freed;
    PlusPlusMinus(refs, i, s, next, t);
    ic.Iunlock(s, i);
    ic.Iput(s, i);
  }

  /** Where a path starts. */
  function StartOf(path: seq<byte>, cwd: nat): nat
  {
    if path != [] && path[0] == SLASH then ROOTINO else cwd
  }

  method Begin(ic: Icache, path: seq<byte>, cwdSlot: nat, cwd: nat, ghost refs: map<nat, Ref>)
    returns (ok: bool, s: nat)
    requires ic.Ok() && ic.Locks() == {} && ic.Refs() == refs
    requires ROOTINO < |ic.fs.mem| && ic.Points(cwdSlot, cwd) && cwd < |ic.fs.mem|
    modifies ic`slots, ic`at
    ensures !ok ==> CacheFull(ic)
    ensures ok ==> Reached(ic, refs, s, StartOf(path, cwd))
  {
    hide Indexed, LocksIn, Plus;
    if path != [] && path[0] == SLASH {
      ok, s := ic.Iget(ROOTINO);
    } else {
      ic.Idup(cwdSlot, cwd);
      ok, s := true, cwdSlot;
    }
  }

  /** namex: the fold of directory lookup over the components of the path, or over all but the last
      for nameiparent, which also gives the last name. No file changes, no lock stays held, and the
      reference counts are as before but for one reference on the result. It panics for want of a
      slot in the inode cache, and if the walk gets stuck on a free inode. */
  method Namex(ic: Icache, path: seq<byte>, parent: bool, cwdSlot: nat, cwd: nat, ghost tree: Tree)
    returns (r: Found, name: Name, inum: nat)
    requires TreeIs(ic.fs, tree) && CString(path) && ic.Ok() && ic.Locks() == {}
    requires Known(ic.fs.mem, ROOTINO) && ic.Points(cwdSlot, cwd) && cwd < |ic.fs.mem|
             && OrphansHeld(ic.fs.mem, ic.Refs())
    modifies ic, ic.fs
    ensures r.FoundPanic? ==> CacheFull(ic) || Stuck(ic.fs.mem, tree, StartOf(path, cwd), Components(path), parent)
    ensures !r.FoundPanic? ==> !Stuck(ic.fs.mem, tree, StartOf(path, cwd), Components(path), parent)
    ensures TreeIs(ic.fs, tree) && ic.fs.disk == old(ic.fs.disk) && ic.fs.mem == old(ic.fs.mem)
    ensures !r.FoundPanic? ==> ic.Ok() && ic.Locks() == {}
    ensures r.FoundNothing? ==>
              Target(tree, StartOf(path, cwd), Components(path), parent) == None && ic.Refs() == old(ic.Refs())
    ensures r.FoundAt? ==> Target(tree, StartOf(path, cwd), Components(path), parent) == Some(inum)
    ensures r.FoundAt? ==> ic.Refs() == Plus(old(ic.Refs()), inum, r.slot) && InPlace(old(ic.Refs()), inum, r.slot)
    ensures r.FoundAt? && parent ==>
              Components(path) != [] && name == Trunc(Components(path)[|Components(path)| - 1]) && CString(name)
  {
    hide Sound, Indexed, LocksIn, Plus, Minus, DirIs, Data, Trunc, TreeOf, Components, OrphansHeld;
    ghost var refs, parts, done := ic.Refs(), Components(path), 0;
    assert AllHeld(refs) by { RefsPositive(ic.slots, ic.at); }
    name := [];
    var p, i := path, StartOf(path, cwd);
    var ok, s := Begin(ic, path, cwdSlot, cwd, refs);
    if !ok { return FoundPanic, [], 0; }
    while true
      invariant TreeIs(ic.fs, tree) && ic.fs.disk == old(ic.fs.disk) && ic.fs.mem == old(ic.fs.mem)
      invariant Reached(ic, refs, s, i) && CString(p) && (done == 0 ==> p == path && i == StartOf(path, cwd))
      invariant 0 <= done <= |parts| && Components(p) == parts[done..]
      invariant Target(tree, StartOf(path, cwd), parts, parent) == Target(tree, i, parts[done..], parent)
      invariant Stuck(ic.fs.mem, tree, StartOf(path, cwd), parts, parent) == Stuck(ic.fs.mem, tree, i, parts[done..],
          parent)
      invariant parent && done > 0 ==> parts[done..] != []
      decreases |p|
    {
      var more, rest, elem := Skipelem(p);
      if !more { break; }
      name := elem;
      assert parts[done..][1..] == parts[done + 1..] && Trunc(elem) == elem by { TruncTwice(parts[done]); }
      var step, next := WalkStep(ic, s, i, name, parent && rest == [], refs, tree);
      match step
      case StepPanic => return FoundPanic, [], 0;
      case StepNothing => return FoundNothing, [], 0;
      case StepStop => return FoundAt(s), name, i;
      case StepTo(t) =>
        p, s, i, done := rest, t, next, done + 1;
    }
    if parent {
      Drop(ic, s, i, refs);
      return FoundNothing, [], 0;
    }
    return FoundAt(s), name, i;
  }

  lemma RefsPositive(slots: seq<CacheSlot>, at: map<nat, nat>)
    requires Indexed(slots, at)
    ensures AllHeld(RefsIn(slots, at))
  {
  }

  lemma TruncTwice(name: seq<byte>)
    ensures Trunc(Trunc(name)) == Trunc(name)
  {
  }
}
