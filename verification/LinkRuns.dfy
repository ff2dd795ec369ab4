/** Any sequence of link, unlink, mknod, mkdir and chdir by a process, on the file system, the inode
    cache and the directory tree: link counts and tree stay right throughout. */
module LinkRuns {
  import opened Blocks
  import opened Ownership
  import opened FileView
  import opened FileRuns
  import opened Directories
  import opened InodeCache
  import opened Paths
  import opened LinkState
  import opened LinkCalls
  import opened UnlinkCall
  import opened CreateCall
  import L = Links

  /** proc->cwd: its slot in the inode cache and its inode number. */
  datatype Cwd = Cwd(slot: nat, inum: nat)

  datatype Syscall =
    | Link(from: seq<byte>, to: seq<byte>)
    | Unlink(path: seq<byte>)
    | Make(path: seq<byte>, kind: half, major: half, minor: half)    // mkdir, mknod, open and close
    | Chdir(path: seq<byte>)

  ghost predicate Set(ic: Icache, cwd: Cwd, g: Shape)
    reads ic, ic.fs
  {
    Ready(ic, cwd.slot, cwd.inum, g.tree, g.home, g.depth)
  }

  /** Something the calls need has run out: a slot or an inode, a block or room in a directory. */
  ghost predicate RanOut(ic: Icache, mem: seq<Inode>)
    reads ic, ic.fs
  {
    NoInode(ic, mem) || NoEntry(ic.fs, mem)
  }

  // ---------------------------------------------------------------- chdir

  lemma GiveBack(refs: map<nat, Ref>, i: nat, s: nat, j: nat, t: nat)
    requires i in refs && refs[i] == Ref(refs[i].count, s) && refs[i].count > 0 && InPlace(refs, j, t)
    ensures var less := Plus(Minus(refs, i), j, t);
      && Plus(refs, j, t) == Plus(less, i, s) && InPlace(less, i, s) && j in less && less[j].slot == t
    ensures var less := Plus(Minus(refs, i), j, t); forall k | k in refs && k != i :: k in less
  {
  }

  /** sys_chdir: a path that leads to a directory makes it the working directory, and the one before
      is let go, which frees it if it was removed and nobody else holds it. */
  method SysChdir(ic: Icache, path: seq<byte>, cwd: Cwd, ghost g: Shape) returns (r: Call, cwd': Cwd, ghost g': Shape)
    requires Set(ic, cwd, g) && CString(path)
    modifies ic, ic.fs
    ensures !r.CallPanic? ==> Set(ic, cwd', g') && !LeadsToFree(old(ic.fs.mem), g.tree, cwd.inum, path)
    ensures r.CallPanic? ==> CacheFull(ic) || LeadsToFree(old(ic.fs.mem), g.tree, cwd.inum, path)
    ensures r.CallFail? ==>
              cwd' == cwd && g' == g && ic.Refs() == old(ic.Refs()) && ic.fs.disk == old(ic.fs.disk)
              && ic.fs.mem == old(ic.fs.mem)
    ensures r.CallFail? ==> TargetOf(g.tree, cwd.inum, path).None? || TargetOf(g.tree, cwd.inum, path).inum !in g.tree
    ensures r.CallDone? ==> TargetOf(g.tree, cwd.inum, path) == Some(cwd'.inum) && cwd'.inum in g.tree
    ensures r.CallDone? ==> Left(old(Now(ic, cwd, g)), Now(ic, cwd', g'))
  {
    hide Sound, Indexed, RefsIn, LocksIn, Plus, Minus, Data, TreeOf, DirTree, L.LinkInv, DirsOf, FilesOf, Target,
         Components, Stuck;
    cwd', g' := cwd, g;
    ghost var refs := ic.Refs();
    ValTree(ic.fs.disk, ic.fs.mem, g.tree, g.home, g.depth);
    var found, _, ip := Namex(ic, path, false, cwd.slot, cwd.inum, g.tree);
    if found.FoundPanic? {
      return CallPanic, cwd, g;
    }
    if found.FoundNothing? {
      return CallFail, cwd, g;
    }
    var s := found.slot;
    TargetInRange(ic.fs.disk, ic.fs.mem, g.tree, StartOf(path, cwd.inum), Components(path), false);
    assert AllHeld(refs) by { RefsPositive(old(ic.slots), old(ic.at)); }
    PlusHolds(refs, ip, s);
    TreeDir(ic.fs, g.tree, ip);
    var locked := ic.Ilock(s, ip);
    if !locked {
      return CallPanic, cwd, g;
    }
    if ic.fs.mem[ip].kind != T_DIR {
      PutLocked(ic, s, ip, refs);
      return CallFail, cwd, g;
    }
    ic.Iunlock(s, ip);
    ghost var less := Plus(Minus(refs, cwd.inum), ip, s);
    GiveBack(refs, cwd.inum, cwd.slot, ip, s);
    assert AllHeld(less) by { StillHeld(refs, cwd.inum, ip, s); }
    ghost var tree' := LastPut(ic, cwd.slot, cwd.inum, less, g.tree, g.home, g.depth);
    cwd', g' := Cwd(s, ip), g.(tree := tree');
    LeftHeld(old(ic.fs.mem), ic.fs.mem, refs, less, cwd.inum);
    r := CallDone;
  }

  lemma StillHeld(refs: map<nat, Ref>, i: nat, j: nat, t: nat)
    requires i in refs && refs[i].count > 0 && AllHeld(refs)
    ensures AllHeld(Plus(Minus(refs, i), j, t))
  {
  }

  lemma LeftHeld(mem: seq<Inode>, mem': seq<Inode>, refs: map<nat, Ref>, less: map<nat, Ref>, i: nat)
    requires OrphansHeld(mem, refs) && i < |mem| && forall k | k in refs && k != i :: k in less
    requires if mem[i].nlink == 0 && i !in less then mem' == mem[i := Emptied(mem[i])] else mem' == mem
    ensures OrphansHeld(mem', less)
  {
  }

  /** The reference moves from the old working directory to the new one. */
  ghost predicate Left(w: World, w': World)
  {
    && w.cwd.inum in w.refs && w.refs[w.cwd.inum].count > 0
    && w'.refs == Plus(Minus(w.refs, w.cwd.inum), w'.cwd.inum, w'.cwd.slot) && w'.g == w.g.(tree := w'.g.tree)
    && Put(w.disk, w.mem, w'.disk, w'.mem, w.g.tree, w'.g.tree, w'.refs, w.cwd.inum)
  }

  // ---------------------------------------------------------------- runs

  ghost predicate CallOk(call: Syscall)
  {
    match call
    case Link(from, to) => CString(from) && CString(to)
    case Unlink(path) => CString(path)
    case Make(path, kind, _, _) => CString(path) && kind != 0
    case Chdir(path) => CString(path)
  }

  // ---------------------------------------------------------------- what a call does

  /** All that a call can see or change. */
  datatype World = World(disk: seq<Block>, mem: seq<Inode>, refs: map<nat, Ref>, cwd: Cwd, g: Shape)

  ghost function Now(ic: Icache, cwd: Cwd, g: Shape): World
    requires ic.Ok()
    reads ic, ic.fs
  {
    World(ic.fs.disk, ic.fs.mem, ic.Refs(), cwd, g)
  }

  /** sys_link acts exactly when the old path leads to a file and the new name is free. */
  ghost predicate LinkDoes(from: seq<byte>, to: seq<byte>, r: Call, w: World, w': World)
  {
    && w'.refs == w.refs && w'.cwd == w.cwd && w'.g == w.g.(tree := w'.g.tree)
    && (r.CallDone? <==> CanLink(w.mem, w.g.tree, w.cwd.inum, from, to))
    && if r.CallDone? then LinkEffect(w.disk, w.mem, w'.disk, w'.mem, w.g.tree, w'.g.tree, w.cwd.inum, from, to)
       else w'.mem == w.mem && w'.g == w.g && SameBytes(w.disk, w.mem, w'.disk, w'.mem)
  }

  ghost predicate UnlinkDoes(path: seq<byte>, r: Call, w: World, w': World)
  {
    && w'.refs == w.refs && w'.cwd == w.cwd && w'.g == w.g.(tree := w'.g.tree)
    && (r.CallDone? <==> CanUnlink(w.disk, w.mem, w.g.tree, w.cwd.inum, path))
    && if r.CallDone? then UnlinkEffect(w.disk, w.mem, w'.disk, w'.mem, w.g.tree, w'.g.tree, w.refs,
                                        ParentOf(w.g.tree, w.cwd.inum, path), LastName(path))
       else w' == w
  }

  /** A free name gets a new inode; the name of a file is opened if a file is asked for. */
  ghost predicate MakeDoes(path: seq<byte>, kind: half, major: half, minor: half, r: Call, w: World, w': World)
  {
    var dp := ParentOf(w.g.tree, w.cwd.inum, path);
    && w'.refs == w.refs && w'.cwd == w.cwd
    && (r.CallDone? <==> NameFree(w.g.tree, w.cwd.inum, path) || OpensFile(w.mem, w.g.tree, w.cwd.inum, path, kind))
    && if NameFree(w.g.tree, w.cwd.inum, path)
       then exists ip ::
              && IsNew(w.disk, w.mem, w'.disk, w'.mem, ip, kind, major, minor, dp)
              && Added(w.g, w'.g, kind, ip, dp, LastName(path))
       else w' == w
  }

  ghost predicate ChdirDoes(path: seq<byte>, r: Call, w: World, w': World)
  {
    var t := TargetOf(w.g.tree, w.cwd.inum, path);
    && (r.CallDone? <==> t.Some? && t.inum in w.g.tree)
    && if r.CallDone? then t.inum == w'.cwd.inum && Left(w, w')
       else w' == w
  }

  ghost predicate Does(call: Syscall, r: Call, w: World, w': World)
  {
    match call
    case Link(from, to) => LinkDoes(from, to, r, w, w')
    case Unlink(path) => UnlinkDoes(path, r, w, w')
    case Make(path, kind, major, minor) => MakeDoes(path, kind, major, minor, r, w, w')
    case Chdir(path) => ChdirDoes(path, r, w, w')
  }

  // ---------------------------------------------------------------- what a call asks for

  /** The directory to which the call adds a name has links, and a count that it raises does not
      overflow. */
  ghost predicate Fine(call: Syscall, w: World)
  {
    match call
    case Link(from, to) =>
      && ParentLinked(w.mem, w.g.tree, w.cwd.inum, to)
      && (TargetOf(w.g.tree, w.cwd.inum, from).Some? ==>
            CountFits(w.mem, TargetOf(w.g.tree, w.cwd.inum, from).inum))
    case Make(path, kind, _, _) =>
      && ParentLinked(w.mem, w.g.tree, w.cwd.inum, path)
      && (kind == T_DIR ==> CountFits(w.mem, ParentOf(w.g.tree, w.cwd.inum, path)))
    case Unlink(_) => true
    case Chdir(_) => true
  }

  /** The paths of a call are absolute, or the working directory has links. */
  ghost predicate StartsLinked(call: Syscall, w: World)
  {
    || (w.cwd.inum < |w.mem| && w.mem[w.cwd.inum].nlink != 0)
    || match call
       case Link(from, to) => Absolute(from) && Absolute(to)
       case Unlink(path) => Absolute(path)
       case Make(path, _, _, _) => Absolute(path)
       case Chdir(path) => Absolute(path)
  }

  ghost predicate Absolute(path: seq<byte>)
  {
    path != [] && path[0] == SLASH
  }

  /** From a removed directory a path may lead to a free inode. */
  ghost predicate Lost(mem: seq<Inode>, tree: Tree, cwd: nat, call: Syscall)
  {
    match call
    case Link(from, to) => LeadsToFree(mem, tree, cwd, from) || ParentStuck(mem, tree, cwd, to)
    case Unlink(path) => ParentStuck(mem, tree, cwd, path)
    case Make(path, _, _, _) => ParentStuck(mem, tree, cwd, path)
    case Chdir(path) => LeadsToFree(mem, tree, cwd, path)
  }

  /** Counts and tree are right, and no inode in use has neither a link nor a reference. */
  ghost predicate Intact(w: World)
  {
    Val(w.disk, w.mem, w.g) && OrphansHeld(w.mem, w.refs)
  }

  /** Then no call gets lost, and it is fine if no count overflows. */
  lemma LinkedIsFine(call: Syscall, w: World)
    requires Intact(w) && w.cwd.inum != 0 && StartsLinked(call, w)
    ensures !Lost(w.mem, w.g.tree, w.cwd.inum, call)
    ensures call.Make? && call.kind != T_DIR ==> Fine(call, w)
    ensures (forall i | 0 <= i < |w.mem| :: w.mem[i].nlink < 0x7fff) ==> Fine(call, w)
  {
    hide L.LinkInv, DirTree, DirsOf, Target, Stuck, Components;
    ValTree(w.disk, w.mem, w.g.tree, w.g.home, w.g.depth);
    match call {
    case Link(from, to) =>
      LinkedStart(w.disk, w.mem, w.g.tree, w.g.home, w.g.depth, w.cwd.inum, from);
      LinkedStart(w.disk, w.mem, w.g.tree, w.g.home, w.g.depth, w.cwd.inum, to);
    case Unlink(path) => LinkedStart(w.disk, w.mem, w.g.tree, w.g.home, w.g.depth, w.cwd.inum, path);
    case Make(path, _, _, _) => LinkedStart(w.disk, w.mem, w.g.tree, w.g.home, w.g.depth, w.cwd.inum, path);
    case Chdir(path) => LinkedStart(w.disk, w.mem, w.g.tree, w.g.home, w.g.depth, w.cwd.inum, path);
    }
  }

  /** The calls up to replies, each doing what it does, lead through the states seen. */
  ghost predicate Trace(w: World, calls: seq<Syscall>, replies: seq<Call>, seen: seq<World>)
  {
    && |seen| == |replies| + 1 && |replies| <= |calls| && seen[0] == w
    && (forall i | 0 <= i < |replies| :: Does(calls[i], replies[i], seen[i], seen[i + 1]))
    && (forall i | 0 <= i < |seen| :: Intact(seen[i]))
  }

  /** In whatever state the calls before it lead to, each call is fine. */
  ghost predicate Fair(w: World, calls: seq<Syscall>)
  {
    forall replies, seen | Trace(w, calls, replies, seen) && |replies| < |calls| ::
      Fine(calls[|replies|], seen[|replies|])
  }

  /** A run ends after its last call, or at a call that panics. */
  ghost predicate Ended(ic: Icache, calls: seq<Syscall>, replies: seq<Call>, panic: bool, w: World)
    reads ic, ic.fs
  {
    if panic
    then |replies| < |calls| && (RanOut(ic, w.mem) || Lost(w.mem, w.g.tree, w.cwd.inum, calls[|replies|]))
    else |replies| == |calls| && Set(ic, w.cwd, w.g) && w == Now(ic, w.cwd, w.g)
  }

  // ---------------------------------------------------------------- runs

  /** mkdir, mknod, or open with O_CREATE and close: create, then iunlockput. */
  method MakeNode(ic: Icache, path: seq<byte>, kind: half, major: half, minor: half, cwd: Cwd, ghost g: Shape)
    returns (r: Call, ghost g': Shape)
    requires Set(ic, cwd, g) && CString(path) && kind != 0
    requires ParentLinked(ic.fs.mem, g.tree, cwd.inum, path)
    requires kind == T_DIR ==> CountFits(ic.fs.mem, ParentOf(g.tree, cwd.inum, path))
    modifies ic, ic.fs
    ensures !r.CallPanic? ==> Set(ic, cwd, g') && ic.Refs() == old(ic.Refs())
    ensures r.CallPanic? ==> RanOut(ic, old(ic.fs.mem)) || ParentStuck(old(ic.fs.mem), g.tree, cwd.inum, path)
    ensures !r.CallPanic? ==> MakeDoes(path, kind, major, minor, r, old(Now(ic, cwd, g)), Now(ic, cwd, g'))
  {
    hide Sound, Indexed, RefsIn, LocksIn, Plus, Data, DirTree, L.LinkInv, DirsOf, Target, Components, OrphansHeld,
         IsNew, Added, Stuck;
    ghost var refs := ic.Refs();
    assert AllHeld(refs) by { RefsPositive(ic.slots, ic.at); }
    var made, ip;
    made, ip, g' := Create(ic, path, kind, major, minor, cwd.slot, cwd.inum, g);
    if made.CreatePanic? {
      return CallPanic, g;
    }
    if made.CreateFail? {
      return CallFail, g;
    }
    PutLocked(ic, made.slot, ip, refs);
    r := CallDone;
  }

  method DoCall(ic: Icache, cwd: Cwd, call: Syscall, ghost g: Shape) returns (r: Call, cwd': Cwd, ghost g': Shape)
    requires Set(ic, cwd, g) && CallOk(call) && Fine(call, Now(ic, cwd, g))
    modifies ic, ic.fs
    ensures !r.CallPanic? ==> Set(ic, cwd', g') && Does(call, r, old(Now(ic, cwd, g)), Now(ic, cwd', g'))
    ensures r.CallPanic? ==> RanOut(ic, old(ic.fs.mem)) || Lost(old(ic.fs.mem), g.tree, cwd.inum, call)
  {
    hide Sound, Indexed, RefsIn, LocksIn, Data, FsVal, OrphansHeld, Stuck, Target, CanUnlink, UnlinkEffect, LinkEffect,
         NameFree, MakeDoes, Left;
    cwd', g' := cwd, g;
    match call {
    case Link(from, to) =>
      ghost var tree';
      r, tree' := SysLink(ic, from, to, cwd.slot, cwd.inum, g.tree, g.home, g.depth);
      g' := g.(tree := tree');
    case Unlink(path) =>
      ghost var tree';
      r, tree' := SysUnlink(ic, path, cwd.slot, cwd.inum, g.tree, g.home, g.depth);
      g' := g.(tree := tree');
    case Make(path, kind, major, minor) =>
      r, g' := MakeNode(ic, path, kind, major, minor, cwd, g);
    case Chdir(path) =>
      r, cwd', g' := SysChdir(ic, path, cwd, g);
    }
  }

  /** Any sequence of calls, each fine where it is made, keeps the file system whole: every link count
      is the number of entries of linked directories, other than ".", that name the inode, ".." leads
      from every linked directory to the root, and no inode in use has neither a link nor a
      reference. The run ends early only if a call panics. */
  method RunCalls(ic: Icache, cwd: Cwd, calls: seq<Syscall>, ghost g: Shape)
    returns (replies: seq<Call>, panic: bool, ghost seen: seq<World>)
    requires Set(ic, cwd, g) && (forall i | 0 <= i < |calls| :: CallOk(calls[i])) && Fair(Now(ic, cwd, g), calls)
    modifies ic, ic.fs
    ensures Trace(old(Now(ic, cwd, g)), calls, replies, seen)
    ensures forall i | 0 <= i < |seen| :: Counts(seen[i].disk, seen[i].mem)
    ensures Ended(ic, calls, replies, panic, seen[|replies|])
  {
    hide Sound, Indexed, RefsIn, LocksIn, Data, FsVal, OrphansHeld, Lost, RanOut, Fine, CallOk, Counts, Does;
    var n, here := 0, cwd;
    ghost var w, g1 := Now(ic, cwd, g), g;
    replies, panic, seen := [], false, [w];
    SetCounts(ic.fs.disk, ic.fs.mem, g);
    while n < |calls|
      invariant 0 <= n == |replies| <= |calls| && Set(ic, here, g1) && !panic
      invariant Trace(w, calls, replies, seen) && seen[n] == Now(ic, here, g1)
      invariant forall i | 0 <= i <= n :: Counts(seen[i].disk, seen[i].mem)
    {
      var r, next;
      ghost var g2;
      assert Fine(calls[n], seen[n]);
      r, next, g2 := DoCall(ic, here, calls[n], g1);
      if r.CallPanic? {
        panic := true;
        return;
      }
      here, g1 := next, g2;
      replies, seen := replies + [r], seen + [Now(ic, here, g1)];
      SetCounts(ic.fs.disk, ic.fs.mem, g1);
      n := n + 1;
    }
  }

  ghost predicate Counts(disk: seq<Block>, mem: seq<Inode>)
  {
    && SizesOk(mem)
    && (forall i | 1 <= i < |mem| :: mem[i].nlink == |L.Naming(mem, DirsOf(disk, mem), i)|)
    && (forall d | d in DirsOf(disk, mem) && L.Linked(mem, d) :: L.ReachesRoot(DirsOf(disk, mem), d))
  }

  lemma SetCounts(disk: seq<Block>, mem: seq<Inode>, g: Shape)
    requires Val(disk, mem, g)
    ensures Counts(disk, mem)
  {
    hide DirTree, DirsOf, L.Naming, L.Shaped, L.Rooted, L.ReachesRoot;
    forall d | d in DirsOf(disk, mem) && L.Linked(mem, d)
      ensures L.ReachesRoot(DirsOf(disk, mem), d)
    {
      L.UpReachesRoot(mem, DirsOf(disk, mem), g.home, g.depth, d);
    }
  }
}
