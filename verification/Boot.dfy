/** From mkfs to system calls: an image is made and mounted, and a process whose working directory is
    the root makes any calls that add or remove names. */
module Boot {
  import opened Blocks
  import opened Bitmap
  import opened Ownership
  import opened FileView
  import opened FileSystem
  import opened FileRuns
  import opened MkfsImage
  import opened Directories
  import opened InodeCache
  import opened Paths
  import opened LinkState
  import opened LinkCalls
  import opened CreateCall
  import opened MkfsMain
  import opened LinkRuns

  /** Nothing in the image is without links. */
  lemma NoOrphans(mem: seq<Inode>, n: nat, refs: map<nat, Ref>)
    requires InUse(mem, n)
    ensures OrphansHeld(mem, refs)
  {
  }

  /** The state of a process that starts in the root of a fresh image. */
  ghost predicate First(w: World, ninodes: nat, args: seq<Arg>)
  {
    && |args| + 2 <= |w.mem| == ninodes <= 0x1_0000 && InUse(w.mem, |args| + 2) && SizesOk(w.mem)
    && Intact(w) && w.g == RootShape(args) && w.cwd.inum == ROOTINO
    && FilesOf(w.disk, w.mem) == Contents(ninodes, args)[ROOTINO := RoundedUp(RootBytes(args))]
  }

  lemma FirstState(fs: FileSys, refs: map<nat, Ref>, cwd: Cwd, ninodes: nat, args: seq<Arg>)
    requires fs.Ok() && |args| + 2 <= |fs.mem| == ninodes <= 0x1_0000 && InUse(fs.mem, |args| + 2) && NamesOk(args)
    requires Mounted(fs, Contents(ninodes, args), ROOTINO) && Sound(fs) && cwd.inum == ROOTINO
    requires DIRENT * (|args| + 2) < MAXBYTES ==> Val(fs.disk, fs.mem, RootShape(args))
    ensures First(World(fs.disk, fs.mem, refs, cwd, RootShape(args)), ninodes, args)
  {
    hide Contents, RoundedUp, RootBytes, RootShape, FilesOf, OrphansHeld, InUse, NamesOk, Val, Exclusive, Sound, Owns,
         SizesOk;
    NoOrphans(fs.mem, |args| + 2, refs);
    RootContents(ninodes, args);
    SoundSizes(fs);
  }

  lemma SoundSizes(fs: FileSys)
    requires Sound(fs)
    ensures SizesOk(fs.mem)
  {
    hide Owns, AllMapped, AllTails;
  }

  /** mkfs, mount, `namei("/")` for the first process, then any calls that are fine where they are
      made: the counts and the tree are right from the first state on. */
  method BootAndRun(size: nat, nlog: nat, ninodes: nat, args: seq<Arg>, nslots: nat, calls: seq<Syscall>)
    returns (ok: bool, ic: Icache?, replies: seq<Call>, panic: bool, ghost seen: seq<World>)
    requires Nmeta(size, nlog, ninodes) <= size <= 0x7fff_ffff - BPB && Nmeta(size, nlog, ninodes) <= BPB
    requires |args| + 2 <= ninodes <= 0x1_0000
    requires NamesOk(args) && DIRENT * (|args| + 2) % BSIZE != 0 && nslots >= 1
    requires forall i | 0 <= i < |calls| :: CallOk(calls[i])
    requires forall w | First(w, ninodes, args) :: Fair(w, calls)
    ensures ok <==> FitsBitmap(MkSb(size, nlog, ninodes), Contents(ninodes, args))
    ensures ok ==> ic != null && |seen| > 0 && First(seen[0], ninodes, args) && Trace(seen[0], calls, replies, seen)
    ensures ok ==> forall i | 0 <= i < |seen| :: Counts(seen[i].disk, seen[i].mem)
    ensures ok ==> Ended(ic, calls, replies, panic, seen[|replies|])
  {
    hide Sound, FsVal, Contents, RoundedUp, RootBytes, RootShape, FilesOf, Counts, OrphansHeld, CallOk, Does, Indexed,
         RefsIn, LocksIn, InUse, Fair;
    ic, replies, panic, seen := null, [], false, [];
    var fs;
    ok, fs := Mkfs(size, nlog, ninodes, args);
    if !ok { return; }
    var cache := new Icache(fs, nslots);
    assert cache.slots[0].ref == 0;
    var _, s := cache.Iget(ROOTINO);
    FirstState(fs, cache.Refs(), Cwd(s, ROOTINO), ninodes, args);
    ic := cache;
    replies, panic, seen := RunCalls(cache, Cwd(s, ROOTINO), calls, RootShape(args));
  }
}
