/** Any run of writei, readi and itrunc refines a table of byte sequences: blocks, bitmap, holes
    and the two copies of each inode are invisible. */
module FileRuns {
  import opened Blocks
  import opened Bitmap
  import opened Ownership
  import opened Inodes
  import opened FileView
  import opened FileSystem

  datatype Op = WriteOp(f: nat, off: word, src: seq<byte>) | ReadOp(f: nat, off: word, n: word) | TruncOp(f: nat)
  datatype Reply = Failed | Count(n: nat) | Got(bytes: seq<byte>) | Truncated

  ghost predicate OpOk(op: Op, files: nat)
  {
    op.f < files && (op.WriteOp? ==> |op.src| < TWO32)
  }

  ghost predicate OpsOk(ops: seq<Op>, files: nat)
  {
    forall i | 0 <= i < |ops| :: OpOk(ops[i], files)
  }

  // ---------------------------------------------------------------- the simple form

  function SpecOp(files: seq<seq<byte>>, op: Op): seq<seq<byte>>
    requires op.f < |files|
  {
    match op
    case WriteOp(f, off, src) =>
      if off <= |files[f]| && off + |src| <= MAXBYTES then files[f := Spliced(files[f], off, src)] else files
    case ReadOp(f, off, n) => files
    case TruncOp(f) => files[f := []]
  }

  function SpecReply(files: seq<seq<byte>>, op: Op): Reply
    requires op.f < |files|
  {
    match op
    case WriteOp(f, off, src) => if off <= |files[f]| && off + |src| <= MAXBYTES then Count(|src|) else Failed
    case ReadOp(f, off, n) =>
      if off <= |files[f]| && off + n < TWO32 then Got(files[f][off..Min(off + n, |files[f]|)]) else Failed
    case TruncOp(f) => Truncated
  }

  function SpecRun(files: seq<seq<byte>>, ops: seq<Op>): (r: seq<seq<byte>>)
    requires OpsOk(ops, |files|)
    ensures |r| == |files|
  {
    if ops == [] then files else SpecOp(SpecRun(files, ops[..|ops| - 1]), ops[|ops| - 1])
  }

  function SpecReplies(files: seq<seq<byte>>, ops: seq<Op>): seq<Reply>
    requires OpsOk(ops, |files|)
  {
    if ops == [] then []
    else SpecReplies(files, ops[..|ops| - 1]) + [SpecReply(SpecRun(files, ops[..|ops| - 1]), ops[|ops| - 1])]
  }

  // ---------------------------------------------------------------- the invariant of runs

  function FilesOf(disk: seq<Block>, mem: seq<Inode>): (r: seq<seq<byte>>)
    requires SizesOk(mem)
    ensures |r| == |mem| && forall f | 0 <= f < |mem| :: r[f] == Data(disk, mem, f)
  {
    seq(|mem|, f requires 0 <= f < |mem| => Data(disk, mem, f))
  }

  ghost predicate AllMapped(disk: seq<Block>, mem: seq<Inode>)
  {
    forall f | 0 <= f < |mem| :: NoHoles(disk, mem, f)
  }

  ghost predicate AllTails(disk: seq<Block>, mem: seq<Inode>)
  {
    forall f | 0 <= f < |mem| :: TailZero(disk, mem, f)
  }

  /** Sizes are in range, no file has holes or stale bytes past its end, and disk and memory hold
      the same inodes. */
  ghost predicate Settled(sb: Superblock, disk: seq<Block>, mem: seq<Inode>)
  {
    && DiskOk(sb, disk) && |mem| == sb.ninodes
    && SizesOk(mem) && AllMapped(disk, mem) && AllTails(disk, mem)
    && SyncedBut(sb, disk, mem, -1)
  }

  /** Settled, and blocks are owned exclusively. */
  ghost predicate Sound(fs: FileSys)
    reads fs
  {
    fs.Ok() && Settled(fs.sb, fs.disk, fs.mem)
  }

  lemma OthersKeep(disk: seq<Block>, mem: seq<Inode>, disk': seq<Block>, mem': seq<Inode>, f: nat)
    requires f < |mem| == |mem'| && SizesOk(mem) && SizesOk(mem')
    requires OthersSame(disk, mem, disk', mem', f) && forall g | 0 <= g < |mem| && g != f :: mem'[g] == mem[g]
    ensures FilesOf(disk', mem') == FilesOf(disk, mem)[f := Data(disk', mem', f)]
  {
    hide Data, SameFile;
    var now, was := FilesOf(disk', mem'), FilesOf(disk, mem);
    forall g | 0 <= g < |mem| && g != f
      ensures now[g] == was[g]
    {
      SameData(disk, mem, disk', mem', g);
    }
  }

  /** A file whose addresses are kept and whose inode is unchanged has no new holes. */
  lemma KeptMapped(disk: seq<Block>, mem: seq<Inode>, disk': seq<Block>, mem': seq<Inode>, g: nat)
    requires g < |mem| == |mem'| && mem'[g] == mem[g] && KeepsRefs(disk, mem, disk', mem') && NoHoles(disk, mem, g)
    ensures NoHoles(disk', mem', g)
  {
    hide RefOf;
  }

  /** A finished write keeps every file settled. */
  lemma WriteSettles(sb: Superblock, disk: seq<Block>, mem: seq<Inode>, disk': seq<Block>, mem': seq<Inode>, f: nat,
                     off: nat, src: seq<byte>)
    requires Settled(sb, disk, mem) && DiskOk(sb, disk') && f < |mem| == |mem'| && off <= mem[f].size
    requires WriteResult(sb, disk, mem, disk', mem', f, off, src)
    ensures Settled(sb, disk', mem')
  {
    hide Data, SameFile, KeepsRefs, NoHoles, TailZero, DiskInode, ReadSb, Spliced;
    forall g | 0 <= g < |mem| && g != f
      ensures NoHoles(disk', mem', g) && TailZero(disk', mem', g)
    {
      KeptMapped(disk, mem, disk', mem', g);
      SameTail(disk, mem, disk', mem', g);
    }
  }

  lemma EmptyTail(disk: seq<Block>, mem: seq<Inode>, f: nat)
    requires f < |mem| && forall k | 0 <= k <= NDIRECT :: mem[f].addrs[k] == 0
    ensures TailZero(disk, mem, f)
  {
    forall k | 0 <= k < MAXBYTES
      ensures View(disk, mem, f, k) == 0
    {
      assert RefOf(disk, mem, f, SlotOf(k / BSIZE)) == 0;
    }
  }

  method DoWrite(fs: FileSys, f: nat, off: word, src: seq<byte>) returns (ok: bool, reply: Reply)
    requires Sound(fs) && OpOk(WriteOp(f, off, src), |fs.mem|)
    modifies fs
    ensures fs.Ok() && |fs.mem| == old(|fs.mem|)
    ensures !ok ==> fs.Full()
    ensures ok ==> Sound(fs) && FilesOf(fs.disk, fs.mem) == SpecOp(old(FilesOf(fs.disk, fs.mem)), WriteOp(f, off, src))
    ensures ok ==> reply == SpecReply(old(FilesOf(fs.disk, fs.mem)), WriteOp(f, off, src))
  {
    hide BitsMatch, OwnersRight, RefsOwned, Data, SameFile, KeepsRefs, NoHoles, TailZero, DiskInode, Bit, ReadSb,
         Spliced;
    var r := fs.Writei(f, off, src);
    ok := !r.WritePanic?;
    reply := if r.WriteDone? then Count(|src|) else Failed;
    if r.WriteDone? {
      OthersKeep(old(fs.disk), old(fs.mem), fs.disk, fs.mem, f);
      WriteSettles(fs.sb, old(fs.disk), old(fs.mem), fs.disk, fs.mem, f, off, src);
    }
  }

  lemma OthersMapped(disk: seq<Block>, mem: seq<Inode>, disk': seq<Block>, mem': seq<Inode>, f: nat)
    requires f < |mem| == |mem'| && OthersRefs(disk, mem, disk', mem', f) && AllMapped(disk, mem)
    requires forall g | 0 <= g < |mem| && g != f :: mem'[g] == mem[g]
    requires mem'[f].size == 0 && forall k | 0 <= k <= NDIRECT :: mem'[f].addrs[k] == 0
    requires OthersSame(disk, mem, disk', mem', f) && AllTails(disk, mem)
    ensures AllMapped(disk', mem') && AllTails(disk', mem')
  {
    hide RefOf, SameFile, TailZero;
    EmptyTail(disk', mem', f);
    forall g | 0 <= g < |mem| && g != f
      ensures NoHoles(disk', mem', g) && TailZero(disk', mem', g)
    {
      assert NoHoles(disk, mem, g);
      SameTail(disk, mem, disk', mem', g);
    }
  }

  method DoTrunc(fs: FileSys, f: nat) returns (reply: Reply)
    requires Sound(fs) && f < |fs.mem|
    modifies fs
    ensures Sound(fs) && |fs.mem| == old(|fs.mem|)
    ensures FilesOf(fs.disk, fs.mem) == SpecOp(old(FilesOf(fs.disk, fs.mem)), TruncOp(f))
    ensures reply == Truncated
  {
    hide BitsMatch, OwnersRight, RefsOwned, Data, SameFile, OthersRefs, NoHoles, TailZero, DiskInode, Bit, ReadSb,
         BitsOfGone;
    fs.Itrunc(f);
    OthersKeep(old(fs.disk), old(fs.mem), fs.disk, fs.mem, f);
    OthersMapped(old(fs.disk), old(fs.mem), fs.disk, fs.mem, f);
    reply := Truncated;
  }

  method DoRead(fs: FileSys, f: nat, off: word, n: word) returns (reply: Reply)
    requires Sound(fs) && f < |fs.mem|
    modifies fs
    ensures Sound(fs) && fs.disk == old(fs.disk) && fs.mem == old(fs.mem)
    ensures reply == SpecReply(old(FilesOf(fs.disk, fs.mem)), ReadOp(f, off, n))
  {
    hide Owns, Data, Grown, NoHoles, TailZero, DiskInode, Bit, ReadSb;
    var r := fs.Readi(f, off, n);
    reply := if r.ReadDone? then Got(r.bytes) else Failed;
  }

  /** Runs ops until one panics. The first n were answered as the byte table answers them, the
      files are what the table says, and the run stops short only on a full disk. */
  method Run(fs: FileSys, ops: seq<Op>) returns (n: nat, replies: seq<Reply>)
    requires Sound(fs) && OpsOk(ops, |fs.mem|)
    modifies fs
    ensures fs.Ok() && n <= |ops| && |fs.mem| == old(|fs.mem|) && OpsOk(ops[..n], |fs.mem|)
    ensures Exclusive(fs.sb, fs.disk, fs.mem)
    ensures replies == SpecReplies(old(FilesOf(fs.disk, fs.mem)), ops[..n])
    ensures n < |ops| ==> ops[n].WriteOp? && fs.Full()
    ensures n == |ops| ==> Sound(fs) && FilesOf(fs.disk, fs.mem) == SpecRun(old(FilesOf(fs.disk, fs.mem)), ops)
  {
    hide Data, SpecOp, SpecReply, AllMapped, AllTails, SyncedBut, Bit, ReadSb;
    ghost var files := FilesOf(fs.disk, fs.mem);
    n, replies := 0, [];
    while n < |ops|
      invariant 0 <= n <= |ops| && Sound(fs) && |fs.mem| == |files|
      invariant FilesOf(fs.disk, fs.mem) == SpecRun(files, ops[..n])
      invariant replies == SpecReplies(files, ops[..n])
    {
      assert ops[..n + 1][..n] == ops[..n] && OpOk(ops[n], |files|);
      var ok, reply := Do(fs, ops[n]);
      if !ok {
        OwnsMeansExclusive(fs.sb, fs.disk, fs.mem, fs.owner);
        return;
      }
      replies := replies + [reply];
      n := n + 1;
    }
    assert ops[..n] == ops;
    OwnsMeansExclusive(fs.sb, fs.disk, fs.mem, fs.owner);
  }

  method Do(fs: FileSys, op: Op) returns (ok: bool, reply: Reply)
    requires Sound(fs) && OpOk(op, |fs.mem|)
    modifies fs
    ensures fs.Ok() && |fs.mem| == old(|fs.mem|)
    ensures !ok ==> op.WriteOp? && fs.Full()
    ensures ok ==> Sound(fs) && FilesOf(fs.disk, fs.mem) == SpecOp(old(FilesOf(fs.disk, fs.mem)), op)
    ensures ok ==> reply == SpecReply(old(FilesOf(fs.disk, fs.mem)), op)
  {
    hide Owns, Data, AllMapped, AllTails, SyncedBut, Bit, ReadSb, Spliced;
    ok := true;
    match op
    case WriteOp(f, off, src) => ok, reply := DoWrite(fs, f, off, src);
    case ReadOp(f, off, n) => reply := DoRead(fs, f, off, n);
    case TruncOp(f) => reply := DoTrunc(fs, f);
  }
}
