/** A life of the kernel: recovery, then operations that overlap, log blocks more than once and share
    commits. It issues exactly the block writes of CrashRuns.LifeWrites, for the transactions that its
    events make up, so the crash theorems there are about this code. */
module LogLife {
  import opened Blocks
  import opened BufferCache
  import opened LogRecovery
  import opened CrashRuns
  import opened L = Log

  // ----- what the events come to -----

  /** begin_op; a block modified and logged; end_op. */
  datatype Event = Begin | Modify(w: Write) | End

  /** The blocks written since the last commit, each once. */
  ghost function BlocksOf(ws: seq<Write>): seq<nat>
  {
    if ws == [] then [] else Absorb(BlocksOf(ws[..|ws| - 1]), ws[|ws| - 1].blockno)
  }

  ghost function Latest(ws: seq<Write>, b: nat): Block
  {
    if ws == [] then ZERO
    else if ws[|ws| - 1].blockno == b then ws[|ws| - 1].data
    else Latest(ws[..|ws| - 1], b)
  }

  /** The transaction they make up: each block with its latest contents. */
  ghost function TxOf(ws: seq<Write>): Tx
  {
    var blocks := BlocksOf(ws);
    Tx(blocks, seq(|blocks|, t requires 0 <= t < |blocks| => Latest(ws, blocks[t])))
  }

  /** Open operations, writes not committed yet, and the transactions committed so far. */
  datatype Progress = Progress(open: nat, ws: seq<Write>, txs: seq<Tx>)

  /** An event that no process can issue, for want of an open operation, is none; begin_op sleeps
      if the reservation does not fit. */
  ghost function Next(l: Layout, maxop: nat, p: Progress, e: Event): Progress
  {
    match e
    case Begin => if |BlocksOf(p.ws)| + (p.open + 1) * maxop <= l.logsize then p.(open := p.open + 1) else p
    case Modify(w) => if p.open == 0 then p else p.(ws := p.ws + [w])
    case End =>
      if p.open == 0 then p
      else if p.open > 1 then p.(open := p.open - 1)
      else Progress(0, [], if p.ws == [] then p.txs else p.txs + [TxOf(p.ws)])
  }

  ghost function Reached(l: Layout, maxop: nat, events: seq<Event>): Progress
  {
    if events == [] then Progress(0, [], [])
    else Next(l, maxop, Reached(l, maxop, events[..|events| - 1]), events[|events| - 1])
  }

  /** The kernel panics: the log is full, or logged blocks pin all of the nbuf buffers. */
  ghost predicate Panics(l: Layout, nbuf: nat, p: Progress, e: Event)
  {
    match e
    case Begin => false
    case Modify(w) =>
      p.open > 0 && (|BlocksOf(p.ws)| >= Capacity(l) || (w.blockno !in BlocksOf(p.ws) && |BlocksOf(p.ws)| >= nbuf))
    case End => p.open == 1 && p.ws != [] && |BlocksOf(p.ws)| >= nbuf
  }

  lemma {:induction false} SomeBlock(ws: seq<Write>)
    ensures BlocksOf(ws) == [] <==> ws == []
  {
  }

  lemma {:induction false} LatestOf(ws: seq<Write>, w: Write, b: nat)
    ensures Latest(ws + [w], b) == if w.blockno == b then w.data else Latest(ws, b)
    ensures BlocksOf(ws + [w]) == Absorb(BlocksOf(ws), w.blockno)
  {
    assert (ws + [w])[..|ws|] == ws;
  }

  // ----- the code -----

  /** From x to y the disk saw exactly the writes of recovery and of the commits of txs. */
  ghost predicate Lived(l: Layout, x: Snapshot, y: Snapshot, txs: seq<Tx>)
  {
    && DiskOk(l, x.disk) && TxsOk(l, txs)
    && y.trace == x.trace + LifeWrites(l, x.disk, txs)
    && y.disk == Apply(x.disk, LifeWrites(l, x.disk, txs))
  }

  /** The log is where the events say. */
  ghost predicate At(log: Log, p: Progress)
    reads log, log.cache
  {
    && log.Idle() && log.outstanding == p.open && !log.committing
    && log.block[..log.n] == BlocksOf(p.ws)
    && forall b | b in BlocksOf(p.ws) && b < |log.cache.view| :: log.cache.view[b] == Latest(p.ws, b)
  }

  /** What is in memory is the transaction to commit. */
  lemma LoggedIs(log: Log, p: Progress)
    requires At(log, p)
    ensures log.Logged() == TxOf(p.ws).data && TxOk(log.l, TxOf(p.ws)) && log.n == |BlocksOf(p.ws)|
    ensures log.CommitPlan() == CommitWrites(log.l, log.cache.disk, TxOf(p.ws))
  {
    hide Quiet, Clean, BlocksOf, Latest, CommitWrites, Capacity;
    var blocks := BlocksOf(p.ws);
    assert forall t | 0 <= t < |blocks| :: Home(log.l, blocks[t]) && blocks[t] in blocks;
  }

  method DoModify(log: Log, w: Write, ghost p: Progress) returns (ok: bool)
    requires At(log, p) && Home(log.l, w.blockno) && p.open > 0
    modifies log, log.cache
    ensures log.cache.trace == old(log.cache.trace) && log.cache.disk == old(log.cache.disk)
    ensures ok <==> !Panics(log.l, log.cache.nbuf, p, Modify(w))
    ensures ok ==> At(log, p.(ws := p.ws + [w]))
  {
    hide Quiet, Clean, BlocksOf, Latest;
    forall b ensures Latest(p.ws + [w], b) == if w.blockno == b then w.data else Latest(p.ws, b) {
      LatestOf(p.ws, w, b);
    }
    LatestOf(p.ws, w, 0);
    ok := log.Update(w.blockno, w.data);
  }

  method DoEnd(log: Log, ghost p: Progress, ghost x: Snapshot) returns (ok: bool)
    requires At(log, p) && p.open > 0 && Lived(log.l, x, Snap(log.cache), p.txs)
    modifies log, log.cache
    ensures ok <==> !Panics(log.l, log.cache.nbuf, p, End)
    ensures !ok ==> Lived(log.l, x, Snap(log.cache), p.txs)
    ensures ok ==> var q := Next(log.l, log.maxop, p, End); At(log, q) && Lived(log.l, x, Snap(log.cache), q.txs)
  {
    LoggedIs(log, p);
    SomeBlock(p.ws);
    ghost var y := Snap(log.cache);
    hide Quiet, Clean, BlocksOf, Latest, Lived, Did, CommitWrites, TxOf, Settled, Loggable;
    ok := log.EndOp();
    if ok && p.open == 1 {
      assert log.block[..log.n] == [] == BlocksOf([]) by { NoBlocks(); }
      OneMore(log.l, x, y, Snap(log.cache), p.txs, TxOf(p.ws));
    }
  }

  lemma NoBlocks()
    ensures BlocksOf([]) == []
  {
  }

  /** Committing a transaction, if it has blocks, makes a life longer. */
  lemma OneMore(l: Layout, x: Snapshot, y: Snapshot, z: Snapshot, txs: seq<Tx>, tx: Tx)
    requires Lived(l, x, y, txs) && TxOk(l, tx) && LayoutOk(l) && |y.disk| == l.blocks
    requires Did(y, z, CommitWrites(l, y.disk, tx))
    ensures Lived(l, x, z, if tx.blocks == [] then txs else txs + [tx])
  {
    hide Apply, RecoveryWrites, Word, Distinct, Puts, LogWrites, Header;
    var p, c := LifeWrites(l, x.disk, txs), CommitWrites(l, y.disk, tx);
    ApplyConcat(x.disk, p, c);
    if tx.blocks == [] {
      assert c == [] && p + c == p;
    } else {
      var more := txs + [tx];
      assert more[..|txs|] == txs;
      assert x.trace + p + c == x.trace + (p + c);
    }
  }

  /** Boot, recover, then any events, up to a panic, which happens exactly where Panics says. The disk
      has seen the writes of recovery and of the transactions that the events make up. */
  method RunLife(log: Log, events: seq<Event>) returns (k: nat)
    requires log.Shape() && Quiet(log.cache.bufs, []) && DiskOk(log.l, log.cache.disk)
    requires log.outstanding == 0 && !log.committing
    requires forall i | 0 <= i < |events| && events[i].Modify? :: Home(log.l, events[i].w.blockno)
    modifies log, log.cache
    ensures k <= |events|
            && Lived(log.l, old(Snap(log.cache)), Snap(log.cache), Reached(log.l, log.maxop, events[..k]).txs)
    ensures forall i | 0 <= i < k :: !Panics(log.l, log.cache.nbuf, Reached(log.l, log.maxop, events[..i]), events[i])
    ensures k < |events| ==> Panics(log.l, log.cache.nbuf, Reached(log.l, log.maxop, events[..k]), events[k])
    ensures k == |events| ==> At(log, Reached(log.l, log.maxop, events))
  {
    hide Quiet, DiskOk, Ready, Panics, At, Lived, Next;
    ghost var x, l := Snap(log.cache), log.l;
    ghost var p := Progress(0, [], []);
    Recover(log);
    k := 0;
    while k < |events|
      invariant 0 <= k <= |events| && p == Reached(l, log.maxop, events[..k])
      invariant At(log, p) && Lived(l, x, Snap(log.cache), p.txs)
      invariant forall i | 0 <= i < k :: !Panics(l, log.cache.nbuf, Reached(l, log.maxop, events[..i]), events[i])
    {
      var ok := DoEvent(log, events[k], p, x);
      if !ok { return; }
      p := Next(l, log.maxop, p, events[k]);
      assert events[..k + 1][..k] == events[..k];
      k := k + 1;
    }
    assert events[..k] == events;
  }

  method Recover(log: Log)
    requires log.Shape() && Quiet(log.cache.bufs, []) && DiskOk(log.l, log.cache.disk)
    requires log.outstanding == 0 && !log.committing
    modifies log, log.cache
    ensures At(log, Progress(0, [], [])) && Lived(log.l, old(Snap(log.cache)), Snap(log.cache), [])
  {
    assert LifeWrites(log.l, log.cache.disk, []) == RecoveryWrites(log.l, log.cache.disk);
    hide Quiet, DiskOk, Clean, Ready, Apply, RecoveryWrites, LifeWrites, Latest;
    log.RecoverFromLog();
    assert log.block[..log.n] == [] == BlocksOf([]);
  }

  method DoEvent(log: Log, e: Event, ghost p: Progress, ghost x: Snapshot) returns (ok: bool)
    requires At(log, p) && Lived(log.l, x, Snap(log.cache), p.txs) && (e.Modify? ==> Home(log.l, e.w.blockno))
    modifies log, log.cache
    ensures ok <==> !Panics(log.l, log.cache.nbuf, p, e)
    ensures !ok ==> Lived(log.l, x, Snap(log.cache), p.txs)
    ensures ok ==> var q := Next(log.l, log.maxop, p, e); At(log, q) && Lived(log.l, x, Snap(log.cache), q.txs)
  {
    hide Quiet, Clean, BlocksOf, Latest, LifeWrites, Apply, DiskOk, TxsOk;
    ok := true;
    match e
    case Begin =>
      var _ := log.BeginOp();
    case Modify(w) =>
      if log.outstanding > 0 {
        ok := DoModify(log, w, p);
      }
    case End =>
      if log.outstanding > 0 {
        ok := DoEnd(log, p, x);
      }
  }
}
