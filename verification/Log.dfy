/** log.c running on the buffer cache: the methods issue exactly the block writes of LogRecovery. */
module Log {
  import opened Blocks
  import opened BufferCache
  import opened LogRecovery

  // ----- which buffers are pinned -----

  /** No buffer is held, and exactly the blocks of `pinned` sit in dirty buffers. */
  ghost predicate Quiet(bufs: seq<Buf>, pinned: seq<nat>)
  {
    && (forall i | 0 <= i < |bufs| :: !bufs[i].busy)
    && (forall i | 0 <= i < |bufs| :: bufs[i].dirty ==> bufs[i].blockno in pinned)
    && (forall t | 0 <= t < |pinned| :: Pinned(bufs, pinned[t]))
  }

  ghost predicate Pinned(bufs: seq<Buf>, b: nat)
  {
    exists i :: 0 <= i < |bufs| && bufs[i].dirty && bufs[i].blockno == b
  }

  lemma {:induction false} Pigeonhole(s: seq<nat>, t: seq<nat>)
    requires Distinct(s) && forall i | 0 <= i < |s| :: s[i] in t
    ensures |s| <= |t|
    decreases |s|
  {
    if |s| > 0 {
      var n := |s| - 1;
      var k :| 0 <= k < |t| && t[k] == s[n];
      var t' := Without(t, k);
      forall i | 0 <= i < n ensures s[..n][i] in t' {
        var j :| 0 <= j < |t| && t[j] == s[i];
        assert t'[if j < k then j else j - 1] == s[i];
      }
      Pigeonhole(s[..n], t');
    }
  }

  /** With fewer pinned blocks than buffers, bget can always recycle one. */
  lemma SomeEligible(bufs: seq<Buf>, view: seq<Block>, pinned: seq<nat>)
    requires Quiet(bufs, pinned) && |pinned| < |bufs| && OneBufferEach(bufs)
    requires forall i | 0 <= i < |bufs| :: Agrees(bufs[i], view)
    ensures exists i :: 0 <= i < |bufs| && Eligible(bufs[i])
  {
    if forall i | 0 <= i < |bufs| :: bufs[i].dirty {
      var s := seq(|bufs|, i requires 0 <= i < |bufs| => bufs[i].blockno);
      forall i, j | 0 <= i < j < |s| ensures s[i] != s[j] {
        assert Agrees(bufs[i], view) && Agrees(bufs[j], view);
        assert !Holds(bufs[j], bufs[i].dev, bufs[i].blockno);
      }
      Pigeonhole(s, pinned);
      assert false;
    }
    var i :| 0 <= i < |bufs| && !bufs[i].dirty;
    assert Eligible(bufs[i]);
  }

  /** There is a buffer for every pinned block; if there is none besides, all are dirty. */
  lemma PinnedFit(bufs: seq<Buf>, pinned: seq<nat>)
    requires Quiet(bufs, pinned) && Distinct(pinned)
    ensures |pinned| <= |bufs|
    ensures |pinned| == |bufs| ==> forall i | 0 <= i < |bufs| :: !Eligible(bufs[i]) && bufs[i].blockno in pinned
  {
    var s := seq(|bufs|, i requires 0 <= i < |bufs| => bufs[i].blockno);
    forall t | 0 <= t < |pinned| ensures pinned[t] in s {
      assert Pinned(bufs, pinned[t]);
      var i :| 0 <= i < |bufs| && bufs[i].dirty && bufs[i].blockno == pinned[t];
      assert s[i] == pinned[t];
    }
    Pigeonhole(pinned, s);
    forall k | 0 <= k < |bufs| && !bufs[k].dirty ensures |pinned| < |bufs| {
      PinnedElsewhere(bufs, pinned, s, k);
      Pigeonhole(pinned, Without(s, k));
    }
  }

  lemma PinnedElsewhere(bufs: seq<Buf>, pinned: seq<nat>, s: seq<nat>, k: nat)
    requires Quiet(bufs, pinned) && |s| == |bufs| && (forall i | 0 <= i < |s| :: s[i] == bufs[i].blockno)
    requires k < |bufs| && !bufs[k].dirty
    ensures forall t | 0 <= t < |pinned| :: pinned[t] in Without(s, k)
  {
    forall t | 0 <= t < |pinned| ensures pinned[t] in Without(s, k) {
      assert Pinned(bufs, pinned[t]);
      var i :| 0 <= i < |bufs| && bufs[i].dirty && bufs[i].blockno == pinned[t];
      assert Without(s, k)[if i < k then i else i - 1] == pinned[t];
    }
  }

  /** A buffer that was not dirty may come back holding another block, saved and released. */
  lemma QuietReplace(bufs: seq<Buf>, pinned: seq<nat>, k: nat, buf: Buf)
    requires Quiet(bufs, pinned) && k < |bufs| && !bufs[k].dirty && !buf.busy && !buf.dirty
    ensures Quiet(bufs[k := buf], pinned)
  {
    forall t | 0 <= t < |pinned| ensures Pinned(bufs[k := buf], pinned[t]) {
      assert Pinned(bufs, pinned[t]);
      var i :| 0 <= i < |bufs| && bufs[i].dirty && bufs[i].blockno == pinned[t];
      assert bufs[k := buf][i].dirty;
    }
  }

  /** Saving the first pinned block unpins it and no other. */
  lemma QuietUnpin(bufs: seq<Buf>, pinned: seq<nat>, k: nat, buf: Buf)
    requires Quiet(bufs, pinned) && pinned != [] && Distinct(pinned) && k < |bufs|
    requires bufs[k].blockno == pinned[0] && !buf.busy && !buf.dirty
    requires forall i | 0 <= i < |bufs| && i != k && bufs[i].dirty :: bufs[i].blockno != pinned[0]
    ensures Quiet(bufs[k := buf], pinned[1..])
  {
    forall t | 0 <= t < |pinned[1..]| ensures Pinned(bufs[k := buf], pinned[1..][t]) {
      assert Pinned(bufs, pinned[t + 1]);
      var i :| 0 <= i < |bufs| && bufs[i].dirty && bufs[i].blockno == pinned[t + 1];
      assert bufs[k := buf][i].dirty;
    }
  }

  /** Log absorption: a block already in the transaction is not logged twice. */
  ghost function Absorb(blocks: seq<nat>, b: nat): seq<nat>
  {
    if b in blocks then blocks else blocks + [b]
  }

  /** A block that has been modified and logged is pinned. */
  lemma QuietPin(bufs: seq<Buf>, pinned: seq<nat>, k: nat, buf: Buf)
    requires Quiet(bufs, pinned) && k < |bufs| && !buf.busy && buf.dirty
    requires bufs[k].dirty ==> bufs[k].blockno == buf.blockno
    ensures Quiet(bufs[k := buf], Absorb(pinned, buf.blockno))
  {
    var bs, ps := bufs[k := buf], Absorb(pinned, buf.blockno);
    forall t | 0 <= t < |ps| ensures Pinned(bs, ps[t]) {
      if ps[t] == buf.blockno {
        assert bs[k].dirty;
      } else {
        assert Pinned(bufs, pinned[t]);
        var i :| 0 <= i < |bufs| && bufs[i].dirty && bufs[i].blockno == pinned[t];
        assert bs[i].dirty;
      }
    }
    assert forall i | 0 <= i < |bs| && bs[i].dirty && i != k :: bufs[i].blockno in pinned;
  }

  /** bread where it can neither sleep nor panic. */
  method Get(cache: Cache, b: nat) returns (i: nat)
    requires cache.Valid() && b < |cache.disk|
    requires forall j | 0 <= j < cache.nbuf :: Holds(cache.bufs[j], DISK, b) ==> !cache.bufs[j].busy
    requires exists j :: 0 <= j < cache.nbuf && (Holds(cache.bufs[j], DISK, b) || Eligible(cache.bufs[j]))
    modifies cache`bufs, cache`disk, cache`trace
    ensures cache.Valid() && cache.disk == old(cache.disk) && cache.trace == old(cache.trace)
    ensures i < cache.nbuf && !old(cache.bufs)[i].busy
    ensures Holds(old(cache.bufs)[i], DISK, b) || Eligible(old(cache.bufs)[i])
    ensures (forall j | 0 <= j < cache.nbuf :: !Holds(old(cache.bufs)[j], DISK, b))
            || Holds(old(cache.bufs)[i], DISK, b)
    ensures cache.bufs == old(cache.bufs)[i := Buf(true, true, old(cache.bufs)[i].dirty, DISK, b, cache.view[b])]
  {
    var r := cache.Bread(b);
    i := r.index;
  }

  /** bread on a quiet cache: it panics exactly if other blocks pin every buffer. */
  method Fetch(cache: Cache, b: nat, ghost pinned: seq<nat>) returns (ok: bool, i: nat)
    requires cache.Valid() && b < |cache.disk| && Quiet(cache.bufs, pinned) && Distinct(pinned)
    modifies cache`bufs, cache`disk, cache`trace
    ensures cache.Valid() && cache.disk == old(cache.disk) && cache.trace == old(cache.trace)
    ensures ok <==> b in pinned || |pinned| < cache.nbuf
    ensures !ok ==> cache.bufs == old(cache.bufs)
    ensures ok ==> i < cache.nbuf && (old(cache.bufs)[i].dirty ==> old(cache.bufs)[i].blockno == b)
    ensures ok && b !in pinned ==> !old(cache.bufs)[i].dirty
    ensures ok ==>
              cache.bufs == old(cache.bufs)[i := Buf(true, true, old(cache.bufs)[i].dirty, DISK, b, cache.view[b])]
  {
    PinnedFit(cache.bufs, pinned);
    if |pinned| < cache.nbuf { SomeEligible(cache.bufs, cache.view, pinned); }
    ghost var _ := if b in pinned then Locate(cache, b, pinned) else 0;
    hide ListValid, Coherent, Distinct;
    var r := cache.Bread(b);
    ok, i := r.Buffer?, 0;
    if ok { i := r.index; }
  }

  /** memmove between two held buffers, bwrite the target, release both. */
  method Transfer(cache: Cache, src: nat, dst: nat)
    requires cache.Valid() && src < cache.nbuf && dst < cache.nbuf && src != dst
    requires var s, d := cache.bufs[src], cache.bufs[dst]; s.busy && s.valid && d.busy && d.valid
    requires var s := cache.bufs[src]; s.dirty || s.data == cache.disk[s.blockno]
    requires cache.bufs[src].blockno != cache.bufs[dst].blockno
    modifies cache
    ensures cache.Valid()
    ensures var s, d := old(cache.bufs[src]), old(cache.bufs[dst]);
            && cache.bufs == old(cache.bufs)[dst := d.(data := s.data, dirty := false,
                                                       busy := false)][src := s.(busy := false)]
            && cache.disk == old(cache.disk)[d.blockno := s.data]
            && cache.view == old(cache.view)[d.blockno := s.data]
            && cache.trace == old(cache.trace) + [Write(d.blockno, s.data)]
  {
    ghost var d := cache.bufs[dst].blockno;
    assert Agrees(cache.bufs[dst], cache.view) && Agrees(cache.bufs[src], cache.view);
    hide ListValid, Coherent;
    cache.Modify(dst, cache.bufs[src].data);
    cache.Bwrite(dst);
    cache.Brelse(src);
    cache.Brelse(dst);
  }

  /** bread of a log slot, then of a home block: the two buffers write_log and install_trans hold.
      The first bread panics exactly if every buffer is pinned. */
  method GetPair(cache: Cache, slot: nat, home: nat, ghost pinned: seq<nat>) returns (ok: bool, lbuf: nat, dbuf: nat)
    requires cache.Valid() && slot < |cache.disk| && home < |cache.disk| && slot != home
    requires Quiet(cache.bufs, pinned) && Distinct(pinned) && 2 <= cache.nbuf
    requires slot !in pinned && (pinned != [] ==> home in pinned)
    modifies cache`bufs, cache`disk, cache`trace
    ensures cache.Valid() && cache.disk == old(cache.disk) && cache.trace == old(cache.trace)
    ensures ok <==> |pinned| < cache.nbuf
    ensures !ok ==> cache.bufs == old(cache.bufs)
    ensures ok ==> lbuf < cache.nbuf && dbuf < cache.nbuf && lbuf != dbuf
    ensures ok ==> !old(cache.bufs)[lbuf].dirty && (old(cache.bufs)[dbuf].dirty <==> pinned != [])
    ensures ok && pinned != [] ==> old(cache.bufs)[dbuf] == Buf(false, true, true, DISK, home, cache.view[home])
    ensures ok ==>
              cache.bufs == old(cache.bufs)[lbuf := Buf(true, true, false, DISK, slot, cache.view[slot])]
                                           [dbuf := Buf(true, true, pinned != [], DISK, home, cache.view[home])]
  {
    ghost var p := if pinned == [] then 0 else Locate(cache, home, pinned);
    hide ListValid, Coherent, Distinct;
    dbuf := 0;
    ok, lbuf := Fetch(cache, slot, pinned);
    if !ok { return; }
    if pinned == [] {
      assert Eligible(cache.bufs[if lbuf == 0 then 1 else 0]);
    } else {
      assert cache.bufs[p] == old(cache.bufs)[p];
    }
    dbuf := Get(cache, home);
  }

  /** The one buffer of a pinned block. */
  ghost function Locate(cache: Cache, b: nat, pinned: seq<nat>): (p: nat)
    reads cache
    requires cache.Valid() && Quiet(cache.bufs, pinned) && b in pinned
    ensures p < cache.nbuf && cache.bufs[p] == Buf(false, true, true, DISK, b, cache.view[b])
    ensures forall i | 0 <= i < cache.nbuf && i != p :: !Holds(cache.bufs[i], DISK, b)
  {
    var t :| 0 <= t < |pinned| && pinned[t] == b;
    assert Pinned(cache.bufs, pinned[t]);
    var p :| 0 <= p < |cache.bufs| && cache.bufs[p].dirty && cache.bufs[p].blockno == b;
    assert Agrees(cache.bufs[p], cache.view);
    p
  }

  lemma OnePinnedBuffer(bufs: seq<Buf>, view: seq<Block>, k: nat)
    requires OneBufferEach(bufs) && k < |bufs| && bufs[k].dirty && forall i | 0 <= i < |bufs| :: Agrees(bufs[i], view)
    ensures forall i | 0 <= i < |bufs| && i != k && bufs[i].dirty :: bufs[i].blockno != bufs[k].blockno
  {
    forall i | 0 <= i < |bufs| && i != k && bufs[i].dirty ensures bufs[i].blockno != bufs[k].blockno {
      assert Agrees(bufs[i], view) && Agrees(bufs[k], view);
      if i < k {
        assert !Holds(bufs[k], bufs[i].dev, bufs[i].blockno);
      } else {
        assert !Holds(bufs[i], bufs[k].dev, bufs[k].blockno);
      }
    }
  }

  /** One round of write_log's loop: copy a pinned block to a log slot on disk. */
  method CopyToLog(cache: Cache, slot: nat, home: nat, ghost pinned: seq<nat>) returns (ok: bool)
    requires cache.Valid() && slot < |cache.disk| && home < |cache.disk|
    requires Quiet(cache.bufs, pinned) && Distinct(pinned) && 2 <= cache.nbuf && home in pinned && slot !in pinned
    modifies cache
    ensures cache.Valid() && Quiet(cache.bufs, pinned) && (ok <==> |pinned| < cache.nbuf)
    ensures !ok ==> Snap(cache) == old(Snap(cache))
    ensures ok ==> Wrote(old(Snap(cache)), Snap(cache), slot, old(cache.view)[home])
  {
    assert |cache.view| == |cache.disk|;
    hide ListValid, Coherent, Distinct;
    var to, from;
    ok, to, from := GetPair(cache, slot, home, pinned);
    hide Quiet;
    if !ok { return; }
    Transfer(cache, from, to);
    assert cache.bufs == old(cache.bufs)[to := cache.bufs[to]];
    QuietReplace(old(cache.bufs), pinned, to, cache.bufs[to]);
  }

  /** What is still pinned once the next listed block is installed. */
  ghost function Rest(pinned: seq<nat>): seq<nat>
  {
    if pinned == [] then [] else pinned[1..]
  }

  /** One round of install_trans's loop: copy a log slot to its home on disk. During a commit the
      home is the first pinned block; during recovery nothing is pinned. */
  method InstallOne(cache: Cache, slot: nat, home: nat, ghost pinned: seq<nat>)
    requires cache.Valid() && slot < |cache.disk| && home < |cache.disk| && slot != home
    requires Quiet(cache.bufs, pinned) && Distinct(pinned) && slot !in pinned && cache.view[slot] == cache.disk[slot]
    requires |pinned| < cache.nbuf && 2 <= cache.nbuf
    requires pinned != [] ==> pinned[0] == home
    modifies cache
    ensures cache.Valid() && Quiet(cache.bufs, Rest(pinned))
    ensures Wrote(old(Snap(cache)), Snap(cache), home, old(cache.view)[slot])
  {
    var _, lbuf, dbuf := GetPair(cache, slot, home, pinned);
    if pinned != [] { OnePinnedBuffer(old(cache.bufs), cache.view, dbuf); }
    hide ListValid, Coherent, Quiet;
    Transfer(cache, lbuf, dbuf);
    ghost var bs := old(cache.bufs)[lbuf := cache.bufs[lbuf]];
    assert cache.bufs == bs[dbuf := cache.bufs[dbuf]];
    QuietReplace(old(cache.bufs), pinned, lbuf, cache.bufs[lbuf]);
    if pinned == [] {
      QuietReplace(bs, pinned, dbuf, cache.bufs[dbuf]);
    } else {
      QuietUnpin(bs, pinned, dbuf, cache.bufs[dbuf]);
    }
  }

  /** Where nothing is held and the block is not pinned, the disk is up to date. */
  lemma UnpinnedIsOnDisk(cache: Cache, pinned: seq<nat>)
    requires cache.Valid() && Quiet(cache.bufs, pinned)
    ensures forall b | 0 <= b < |cache.disk| && b !in pinned :: cache.view[b] == cache.disk[b]
  {
    forall b | 0 <= b < |cache.disk| && b !in pinned ensures cache.view[b] == cache.disk[b] {
      UncachedIsOnDisk(cache.bufs, cache.disk, cache.view, b);
    }
  }

  lemma NothingPinned(cache: Cache)
    requires cache.Valid() && Quiet(cache.bufs, [])
    ensures cache.view == cache.disk
  {
    UnpinnedIsOnDisk(cache, []);
  }

  lemma HeaderOnDisk(l: Layout, cache: Cache, blocks: seq<nat>)
    requires LayoutOk(l) && cache.Valid() && |cache.disk| == l.blocks
    requires Loggable(l, blocks) && Quiet(cache.bufs, blocks)
    ensures |cache.view| == l.blocks && cache.view[l.start] == cache.disk[l.start]
  {
    UnpinnedIsOnDisk(cache, blocks);
    assert forall i | 0 <= i < |blocks| :: Home(l, blocks[i]);
  }

  // ----- what a run of block writes did -----

  ghost function Gather(view: seq<Block>, blocks: seq<nat>): seq<Block>
  {
    seq(|blocks|, t requires 0 <= t < |blocks| => if blocks[t] < |view| then view[blocks[t]] else ZERO)
  }

  /** Trace, disk and latest contents of the cache. */
  datatype Snapshot = Snapshot(trace: seq<Write>, disk: seq<Block>, view: seq<Block>)

  ghost function Snap(cache: Cache): Snapshot
    reads cache
  {
    Snapshot(cache.trace, cache.disk, cache.view)
  }

  /** From state x, the writes ws were issued and nothing else happened. */
  ghost predicate Did(x: Snapshot, y: Snapshot, ws: seq<Write>)
  {
    y.trace == x.trace + ws && y.disk == Apply(x.disk, ws) && y.view == Apply(x.view, ws)
  }

  /** Every home block is on disk, with the contents it had in x. */
  ghost predicate Settled(l: Layout, x: Snapshot, y: Snapshot)
  {
    && |x.view| == |y.view| == |y.disk| == l.blocks
    && forall b | 0 <= b < l.blocks && Home(l, b) :: y.disk[b] == y.view[b] == x.view[b]
  }

  /** The effect of one bwrite of new contents. */
  ghost predicate Wrote(x: Snapshot, y: Snapshot, b: nat, data: Block)
  {
    && b < |x.disk| == |x.view|
    && y == Snapshot(x.trace + [Write(b, data)], x.disk[b := data], x.view[b := data])
  }

  lemma DidNothing(x: Snapshot)
    ensures Did(x, x, [])
  {}

  lemma DidOneMore(x: Snapshot, y: Snapshot, z: Snapshot, ws: seq<Write>, w: Write)
    requires Did(x, y, ws) && Wrote(y, z, w.blockno, w.data)
    ensures Did(x, z, ws + [w])
  {
    ApplyOne(x.disk, ws, w);
    ApplyOne(x.view, ws, w);
  }

  lemma DidBoth(x: Snapshot, y: Snapshot, z: Snapshot, u: seq<Write>, v: seq<Write>)
    requires Did(x, y, u) && Did(y, z, v)
    ensures Did(x, z, u + v)
  {
    ApplyConcat(x.disk, u, v);
    ApplyConcat(x.view, u, v);
    assert x.trace + u + v == x.trace + (u + v);
  }

  /** A slot and a home are different blocks of the disk. */
  lemma SlotAndHome(l: Layout, blocks: seq<nat>, t: nat)
    requires LayoutOk(l) && Loggable(l, blocks) && t < |blocks|
    ensures l.start + 1 + t < l.blocks && l.start + 1 + t !in blocks && l.start !in blocks
    ensures blocks[t] < l.blocks && blocks[t] in blocks && Home(l, blocks[t]) && !Home(l, l.start + 1 + t)
  {
    assert forall i | 0 <= i < |blocks| :: Home(l, blocks[i]);
  }

  /** While slots are being filled, the header and the homes keep their contents. */
  lemma SlotsOnly(l: Layout, v: seq<Block>, data: seq<Block>, k: nat)
    requires LayoutOk(l) && |v| == l.blocks && k <= |data| <= Capacity(l)
    ensures var w := Apply(v, LogWrites(l, data)[..k]);
            && (forall b | 0 <= b < l.blocks && Home(l, b) :: w[b] == v[b])
            && w[l.start] == v[l.start]
            && w[l.start + 1..l.start + 1 + k] == data[..k]
  {
    LogWritesEffect(l, v, data, k);
    hide Apply, LogWrites;
  }

  /** While homes are being installed, the header and the slots keep their contents. */
  lemma HomesOnly(l: Layout, v: seq<Block>, blocks: seq<nat>, data: seq<Block>, k: nat)
    requires LayoutOk(l) && |v| == l.blocks && Loggable(l, blocks) && k <= |blocks| == |data|
    ensures var w := Apply(v, Puts(blocks, data)[..k]);
            && (forall b | 0 <= b < l.blocks && !Home(l, b) :: w[b] == v[b])
            && (forall b | 0 <= b < l.blocks && b !in blocks :: w[b] == v[b])
            && (k == |blocks| ==> forall t | 0 <= t < k :: blocks[t] < l.blocks && w[blocks[t]] == data[t])
  {
    assert forall t | 0 <= t < |blocks| :: Home(l, blocks[t]);
    PutsEffect(v, blocks, data, k);
    hide Apply, Puts;
    assert forall b | b in blocks[..k] :: b in blocks;
  }

  lemma CapacityBound(l: Layout, blocks: seq<nat>)
    requires Loggable(l, blocks)
    ensures |blocks| <= Capacity(l)
  {}

  lemma DidView(x: Snapshot, y: Snapshot, ws: seq<Write>)
    requires Did(x, y, ws)
    ensures y.view == Apply(x.view, ws)
  {}

  /** A log slot is never pinned, so cache and disk agree on it. */
  lemma SlotOnDisk(l: Layout, cache: Cache, blocks: seq<nat>, left: seq<nat>, t: nat)
    requires LayoutOk(l) && cache.Valid() && |cache.disk| == l.blocks && Loggable(l, blocks) && t < |blocks|
    requires Quiet(cache.bufs, left) && (left == [] || left == blocks[t..])
    ensures l.start + 1 + t < l.blocks && l.start + 1 + t !in left
    ensures |cache.view| == |cache.disk| && cache.view[l.start + 1 + t] == cache.disk[l.start + 1 + t]
    ensures Distinct(left) && (left != [] ==> left[0] == blocks[t])
  {
    SlotAndHome(l, blocks, t);
    UnpinnedIsOnDisk(cache, left);
  }

  ghost predicate Ready(l: Layout, cache: Cache, blocks: seq<nat>)
    reads cache
  {
    && LayoutOk(l) && Loggable(l, blocks)
    && cache.Valid() && |cache.disk| == |cache.view| == l.blocks && 2 <= cache.nbuf
  }

  lemma ReadyHomes(l: Layout, blocks: seq<nat>)
    requires Loggable(l, blocks)
    ensures forall t | 0 <= t < |blocks| :: blocks[t] < l.blocks
  {
    assert forall t | 0 <= t < |blocks| :: Home(l, blocks[t]);
  }

  /** A round of write_log, as a step from the state x in which the loop began. */
  method WriteLogStep(l: Layout, cache: Cache, home: nat, tail: nat, ghost blocks: seq<nat>, ghost x: Snapshot)
    returns (ok: bool)
    requires Ready(l, cache, blocks) && Quiet(cache.bufs, blocks)
    requires tail < |blocks| && home == blocks[tail] && |x.view| == l.blocks
    requires Did(x, Snap(cache), LogWrites(l, Gather(x.view, blocks))[..tail])
    modifies cache
    ensures Ready(l, cache, blocks) && Quiet(cache.bufs, blocks) && (ok <==> |blocks| < cache.nbuf)
    ensures !ok ==> Snap(cache) == old(Snap(cache))
    ensures ok ==> Did(x, Snap(cache), LogWrites(l, Gather(x.view, blocks))[..tail + 1])
  {
    ghost var ws, y := LogWrites(l, Gather(x.view, blocks)), Snap(cache);
    hide ListValid, Coherent, Quiet, Apply, Did, LayoutOk, Loggable;
    SlotAndHome(l, blocks, tail);
    CapacityBound(l, blocks);
    DidView(x, y, ws[..tail]);
    SlotsOnly(l, x.view, Gather(x.view, blocks), tail);
    assert Distinct(blocks) by { LoggableDistinct(l, blocks); }
    ok := CopyToLog(cache, l.start + tail + 1, home, blocks);
    if !ok { return; }
    DidOneMore(x, y, Snap(cache), ws[..tail], ws[tail]);
    assert ws[..tail + 1] == ws[..tail] + [ws[tail]];
  }

  lemma LoggableDistinct(l: Layout, blocks: seq<nat>)
    requires Loggable(l, blocks)
    ensures Distinct(blocks)
  {}

  /** A round of install_trans, as a step from the state x in which the loop began. */
  method InstallStep(l: Layout, cache: Cache, home: nat, tail: nat, ghost blocks: seq<nat>, ghost left: seq<nat>,
                     ghost x: Snapshot)
    requires Ready(l, cache, blocks) && Quiet(cache.bufs, left) && |left| < cache.nbuf
    requires tail < |blocks| && home == blocks[tail] && (left == [] || left == blocks[tail..])
    requires |x.view| == l.blocks && l.start + 1 + |blocks| <= l.blocks
    requires Did(x, Snap(cache), Puts(blocks, x.view[l.start + 1..l.start + 1 + |blocks|])[..tail])
    modifies cache
    ensures Ready(l, cache, blocks) && Quiet(cache.bufs, Rest(left))
    ensures Did(x, Snap(cache), Puts(blocks, x.view[l.start + 1..l.start + 1 + |blocks|])[..tail + 1])
  {
    ghost var data, y := x.view[l.start + 1..l.start + 1 + |blocks|], Snap(cache);
    hide ListValid, Coherent, Quiet, Apply, Did, LayoutOk, Loggable, Distinct, Rest, Puts;
    InstallFacts(l, cache, blocks, left, tail, x, data);
    InstallOne(cache, l.start + tail + 1, home, left);
    DidNextPut(x, y, Snap(cache), blocks, data, tail);
  }

  lemma InstallFacts(l: Layout, cache: Cache, blocks: seq<nat>, left: seq<nat>, tail: nat, x: Snapshot,
                     data: seq<Block>)
    requires Ready(l, cache, blocks) && Quiet(cache.bufs, left)
    requires tail < |blocks| == |data| && (left == [] || left == blocks[tail..])
    requires |x.view| == l.blocks && l.start + 1 + |blocks| <= l.blocks
    requires data == x.view[l.start + 1..l.start + 1 + |blocks|]
    requires Did(x, Snap(cache), Puts(blocks, data)[..tail])
    ensures l.start + 1 + tail < l.blocks && l.start + 1 + tail !in left
            && l.start + 1 + tail != blocks[tail] < l.blocks
    ensures cache.view[l.start + 1 + tail] == cache.disk[l.start + 1 + tail] == data[tail]
    ensures Distinct(left) && (left != [] ==> left[0] == blocks[tail])
  {
    hide ListValid, Apply, Puts;
    SlotAndHome(l, blocks, tail);
    HomesOnly(l, x.view, blocks, data, tail);
    SlotOnDisk(l, cache, blocks, left, tail);
  }

  lemma DidNextPut(x: Snapshot, y: Snapshot, z: Snapshot, blocks: seq<nat>, data: seq<Block>, k: nat)
    requires k < |blocks| == |data| && Did(x, y, Puts(blocks, data)[..k]) && Wrote(y, z, blocks[k], data[k])
    ensures Did(x, z, Puts(blocks, data)[..k + 1])
  {
    var ws := Puts(blocks, data);
    DidOneMore(x, y, z, ws[..k], ws[k]);
    assert ws[..k + 1] == ws[..k] + [ws[k]];
  }

  /** write_head's copying loop. */
  method FillHeader(b: Block, n: nat, block: seq<nat>) returns (hb: Block)
    requires n <= |block| && n < WORDS - 1
    requires forall t | 0 <= t < n :: block[..n][t] < TWO32
    ensures hb == Header(b, block[..n])
  {
    hb := SetWord(b, 0, n);
    var i := 0;
    while i < n
      invariant 0 <= i <= n
      invariant hb == HeaderUpTo(b, block[..n], i)
    {
      assert block[..n][i] == block[i];
      hb := SetWord(hb, i + 1, block[i]);
      i := i + 1;
    }
  }

  /** read_head's copying loop. */
  method ReadEntries(lh: Block, block: seq<nat>) returns (n: int, r: seq<nat>)
    requires 0 <= HeaderN(lh) < WORDS - 1 && HeaderN(lh) <= |block|
    ensures n == HeaderN(lh) && |r| == |block| && r[..n] == Listed(lh)
  {
    n := Signed(Word(lh, 0));
    r := block;
    var i := 0;
    while i < n
      invariant 0 <= i <= n && |r| == |block|
      invariant forall t | 0 <= t < i :: r[t] == Word(lh, 1 + t)
    {
      r := r[i := Word(lh, 1 + i)];
      i := i + 1;
    }
  }

  /** Installing what the header lists and erasing the header is recovery. */
  lemma RecoveryDone(l: Layout, x: Snapshot, y: Snapshot, z: Snapshot)
    requires DiskOk(l, x.disk) && x.view == x.disk
    requires Did(x, y, Puts(Listed(x.disk[l.start]), LogData(l, x.disk)))
    requires |y.view| == l.blocks && Wrote(y, z, l.start, Header(y.view[l.start], []))
    ensures z.trace == x.trace + RecoveryWrites(l, x.disk)
    ensures z.disk == z.view == Recovered(l, x.disk) && Clean(l, z.disk)
  {
    hide Word, SetWord, Apply, Distinct;
    var d, ls, data := x.disk, Listed(x.disk[l.start]), LogData(l, x.disk);
    var ws := Puts(ls, data);
    assert ws[..|ls|] == ws;
    HomesOnly(l, d, ls, data, |ls|);
    assert y.view[l.start] == d[l.start];
    DidOneMore(x, y, z, ws, Write(l.start, SetWord(d[l.start], 0, 0)));
    RecoveredIsClean(l, d);
  }

  lemma HeaderEmpty(b: Block)
    ensures Header(b, []) == SetWord(b, 0, 0)
  {}

  /** Filling the slots and writing the header, then installing and erasing the header, is commit. */
  lemma CommitDone(l: Layout, x: Snapshot, y: Snapshot, z: Snapshot, blocks: seq<nat>)
    requires Clean(l, x.disk) && Loggable(l, blocks) && |blocks| > 0
    requires |x.view| == |y.view| == l.blocks && x.view[l.start] == x.disk[l.start]
    requires Did(x, y, LogWrites(l, Gather(x.view, blocks)) + [Write(l.start, Header(x.view[l.start], blocks))])
    requires Did(y, z, Puts(blocks,
                            y.view[l.start + 1..l.start + 1 + |blocks|]) + [Write(l.start,
                                SetWord(y.view[l.start], 0, 0))])
    ensures Did(x, z, CommitWrites(l, x.disk, Tx(blocks, Gather(x.view, blocks))))
    ensures Clean(l, z.disk) && (z.disk == z.view ==> Settled(l, x, z))
  {
    hide Word, SetWord, HeaderUpTo, Apply, Distinct, Puts, LogWrites;
    assert forall t | 0 <= t < |blocks| :: Home(l, blocks[t]);
    var data := Gather(x.view, blocks);
    var h := Header(x.disk[l.start], blocks);
    var w1, w3 := LogWrites(l, data), Puts(blocks, data);
    LoggedView(l, x, y, data, h);
    DidBoth(x, y, z, w1 + [Write(l.start, h)], w3 + [Write(l.start, SetWord(h, 0, 0))]);
    assert (w1 + [Write(l.start, h)]) + (w3 + [Write(l.start, SetWord(h, 0, 0))])
        == w1 + [Write(l.start, h)] + w3 + [Write(l.start, SetWord(h, 0, 0))];
    InstalledView(l, x, y, z, blocks);
    CommitLeavesClean(l, x, z, blocks);
  }

  lemma LoggedView(l: Layout, x: Snapshot, y: Snapshot, data: seq<Block>, h: Block)
    requires LayoutOk(l) && |x.view| == l.blocks && |data| <= Capacity(l)
    requires Did(x, y, LogWrites(l, data) + [Write(l.start, h)])
    ensures |y.view| == l.blocks && y.view[l.start] == h && y.view[l.start + 1..l.start + 1 + |data|] == data
    ensures forall b | 0 <= b < l.blocks && Home(l, b) :: y.view[b] == x.view[b]
  {
    AllLogWrites(l, x.view, data);
    ApplyOne(x.view, LogWrites(l, data), Write(l.start, h));
    hide Apply, LogWrites;
  }

  lemma InstalledView(l: Layout, x: Snapshot, y: Snapshot, z: Snapshot, blocks: seq<nat>)
    requires LayoutOk(l) && Loggable(l, blocks) && |x.view| == |y.view| == l.blocks
    requires forall b | 0 <= b < l.blocks && Home(l, b) :: y.view[b] == x.view[b]
    requires Did(y, z, Puts(blocks, Gather(x.view, blocks)) + [Write(l.start, SetWord(y.view[l.start], 0, 0))])
    ensures |z.view| == l.blocks && forall b | 0 <= b < l.blocks && Home(l, b) :: z.view[b] == x.view[b]
  {
    hide SetWord, Distinct;
    var data := Gather(x.view, blocks);
    var ws := Puts(blocks, data);
    assert forall t | 0 <= t < |blocks| :: Home(l, blocks[t]);
    assert ws[..|blocks|] == ws;
    HomesOnly(l, y.view, blocks, data, |blocks|);
    ApplyOne(y.view, ws, Write(l.start, SetWord(y.view[l.start], 0, 0)));
    hide Apply, Puts;
    SameHomes(l, x.view, y.view, Apply(y.view, ws), blocks, data);
  }

  lemma SameHomes(l: Layout, v: seq<Block>, w: seq<Block>, r: seq<Block>, blocks: seq<nat>, data: seq<Block>)
    requires |v| == |w| == |r| == l.blocks && |blocks| == |data|
    requires forall b | 0 <= b < l.blocks && Home(l, b) :: w[b] == v[b]
    requires forall b | 0 <= b < l.blocks && b !in blocks :: r[b] == w[b]
    requires forall t | 0 <= t < |blocks| :: blocks[t] < l.blocks && r[blocks[t]] == data[t] == v[blocks[t]]
    ensures forall b | 0 <= b < l.blocks && Home(l, b) :: r[b] == v[b]
  {
    forall b | 0 <= b < l.blocks && Home(l, b) ensures r[b] == v[b] {
      if b in blocks {
        var t :| 0 <= t < |blocks| && blocks[t] == b;
      }
    }
  }

  class Log {
    const l: Layout
    const maxop: nat                // MAXOPBLOCKS
    const cache: Cache
    var n: nat                      // lh.n
    var block: seq<nat>             // lh.block
    var outstanding: int
    var committing: bool

    ghost predicate Shape()
      reads this, cache
    {
      |block| == l.logsize && n <= |block| && Ready(l, cache, block[..n])
    }

    /** Between operations: the header on disk is erased, the logged blocks are exactly the pinned
        ones, and every other block is on disk already. */
    ghost predicate Idle()
      reads this, cache
    {
      Shape() && Quiet(cache.bufs, block[..n]) && Clean(l, cache.disk)
    }

    /** The latest contents of the blocks in the in-memory header. */
    ghost function Logged(): seq<Block>
      reads this, cache
      requires Shape()
    {
      Gather(cache.view, block[..n])
    }

    /** What the log slots hold. */
    ghost function SlotData(): seq<Block>
      reads this, cache
      requires Shape()
    {
      cache.view[l.start + 1..l.start + 1 + n]
    }

    /** The block writes that committing the transaction in memory takes. */
    ghost function CommitPlan(): seq<Write>
      reads this, cache
      requires Idle()
    {
      CommitWrites(l, cache.disk, Tx(block[..n], Logged()))
    }

    constructor (l: Layout, maxop: nat, cache: Cache)
      requires Ready(l, cache, [])
      ensures this.l == l && this.maxop == maxop && this.cache == cache
      ensures Shape() && n == 0 && outstanding == 0 && !committing
    {
      this.l := l;
      this.maxop := maxop;
      this.cache := cache;
      n := 0;
      block := seq(l.logsize, _ => 0);
      outstanding := 0;
      committing := false;
      new;
      assert block[..n] == [];
    }

    /** read_head: copy the header on disk to memory. */
    method ReadHead()
      requires Shape() && Quiet(cache.bufs, []) && DiskOk(l, cache.disk)
      modifies this`n, this`block, cache
      ensures Shape() && Quiet(cache.bufs, [])
      ensures n == HeaderN(cache.disk[l.start]) && block[..n] == Listed(cache.disk[l.start])
      ensures Snap(cache) == old(Snap(cache))
    {
      hide ListValid;
      UnpinnedIsOnDisk(cache, []);
      SomeEligible(cache.bufs, cache.view, []);
      hide ListValid, Coherent, Word, Signed;
      var buf := Get(cache, l.start);
      n, block := ReadEntries(cache.bufs[buf].data, block);
      cache.Brelse(buf);
      assert cache.bufs == old(cache.bufs)[buf := cache.bufs[buf]];
      QuietReplace(old(cache.bufs), [], buf, cache.bufs[buf]);
    }

    /** write_head: the header block with the in-memory count and entries; later entries keep what
        was there. One block write. */
    method WriteHead(ghost pinned: seq<nat>)
      requires Shape() && Quiet(cache.bufs, pinned) && |pinned| < cache.nbuf && l.start !in pinned
      modifies cache
      ensures Shape() && Quiet(cache.bufs, pinned)
      ensures Wrote(old(Snap(cache)), Snap(cache), l.start, Header(old(cache.view)[l.start], block[..n]))
    {
      hide ListValid;
      SomeEligible(cache.bufs, cache.view, pinned);
      ReadyHomes(l, block[..n]);
      hide ListValid, Coherent, Header;
      var buf := Get(cache, l.start);
      var hb := FillHeader(cache.bufs[buf].data, n, block);
      cache.Modify(buf, hb);
      cache.Bwrite(buf);
      cache.Brelse(buf);
      assert cache.bufs == old(cache.bufs)[buf := cache.bufs[buf]];
      QuietReplace(old(cache.bufs), pinned, buf, cache.bufs[buf]);
    }

    /** write_log: copy the logged blocks to the slots after the header. It panics, before it has
        written anything, exactly if the logged blocks pin every buffer. */
    method WriteLog() returns (ok: bool)
      requires Shape() && Quiet(cache.bufs, block[..n])
      modifies cache
      ensures Shape() && Quiet(cache.bufs, block[..n]) && (ok <==> n == 0 || n < cache.nbuf)
      ensures !ok ==> Snap(cache) == old(Snap(cache))
      ensures ok ==> Did(old(Snap(cache)), Snap(cache), LogWrites(l, old(Logged())))
    {
      hide ListValid, Coherent, Distinct, Quiet;
      ghost var x, blocks := Snap(cache), block[..n];
      ghost var ws := LogWrites(l, Logged());
      assert ws[..0] == [] && ws[..n] == ws;
      DidNothing(x);
      hide Quiet, Did, Ready, LogWrites;
      var tail := 0;
      ok := true;
      while tail < n
        invariant 0 <= tail <= n && Ready(l, cache, blocks) && Quiet(cache.bufs, blocks)
        invariant Did(x, Snap(cache), ws[..tail]) && (tail > 0 ==> n < cache.nbuf)
        invariant tail == 0 ==> Snap(cache) == x
      {
        ok := WriteLogStep(l, cache, block[tail], tail, blocks, x);
        if !ok { return; }
        tail := tail + 1;
      }
    }

    /** install_trans: copy every slot to its home. */
    method InstallTrans(ghost pinned: seq<nat>)
      requires Shape() && Quiet(cache.bufs, pinned) && |pinned| < cache.nbuf
      requires pinned == [] || pinned == block[..n]
      modifies cache
      ensures Shape() && Quiet(cache.bufs, [])
      ensures Did(old(Snap(cache)), Snap(cache), Puts(block[..n], old(SlotData())))
    {
      hide ListValid, Coherent, Distinct, Quiet;
      ghost var x, blocks, left := Snap(cache), block[..n], pinned;
      ghost var ws := Puts(blocks, SlotData());
      assert ws[..0] == [] && ws[..n] == ws;
      DidNothing(x);
      hide Quiet, Did, Ready, Puts;
      var tail := 0;
      while tail < n
        invariant 0 <= tail <= n && Ready(l, cache, blocks)
        invariant left == if pinned == [] then [] else blocks[tail..]
        invariant Quiet(cache.bufs, left) && |left| < cache.nbuf
        invariant Did(x, Snap(cache), ws[..tail])
      {
        InstallStep(l, cache, block[tail], tail, blocks, left, x);
        left := Rest(left);
        tail := tail + 1;
      }
    }

    /** recover_from_log: the writes of RecoveryWrites, in that order. */
    method RecoverFromLog()
      requires Shape() && Quiet(cache.bufs, []) && DiskOk(l, cache.disk)
      modifies this`n, this`block, cache
      ensures Idle() && n == 0
      ensures cache.trace == old(cache.trace) + RecoveryWrites(l, old(cache.disk))
      ensures cache.disk == Recovered(l, old(cache.disk)) && cache.view == cache.disk
    {
      ghost var x := Snap(cache);
      NothingPinned(cache);
      hide ListValid, Coherent, Quiet, Did, Wrote, Recovered, RecoveryWrites, Header, Word;
      ReadHead();
      InstallTrans([]);
      ghost var y := Snap(cache);
      n := 0;
      assert block[..n] == [];
      WriteHead([]);
      RecoveryDone(l, x, y, Snap(cache));
    }

    /** commit: the writes of CommitWrites, in that order; nothing is pinned afterwards. It panics,
        with nothing written, exactly if the logged blocks pin every buffer. */
    method Commit() returns (ok: bool)
      requires Idle()
      modifies this`n, cache
      ensures ok <==> old(n) == 0 || old(n) < cache.nbuf
      ensures !ok ==> Snap(cache) == old(Snap(cache))
      ensures ok ==> Idle() && n == 0
      ensures ok ==> Did(old(Snap(cache)), Snap(cache), old(CommitPlan()))
      ensures ok ==> Settled(l, old(Snap(cache)), Snap(cache))
    {
      ok := true;
      if n > 0 {
        ok := CommitSome();
      } else {
        assert block[..n] == [];
        NothingPinned(cache);
        DidNothing(Snap(cache));
      }
    }

    method CommitSome() returns (ok: bool)
      requires Idle() && 0 < n
      modifies this`n, cache
      ensures ok <==> old(n) < cache.nbuf
      ensures !ok ==> Snap(cache) == old(Snap(cache))
      ensures ok ==> Idle() && n == 0
      ensures ok ==> Did(old(Snap(cache)), Snap(cache), old(CommitPlan()))
      ensures ok ==> Settled(l, old(Snap(cache)), Snap(cache))
    {
      ghost var x, blocks := Snap(cache), block[..n];
      HeaderOnDisk(l, cache, blocks);
      hide ListValid, Coherent, Quiet, Did, Header, SetWord, Word, Clean, CommitWrites, Loggable;
      ok := LogIt();
      if !ok { return; }
      ghost var y := Snap(cache);
      Install();
      NothingPinned(cache);
      CommitDone(l, x, y, Snap(cache), blocks);
    }

    /** The half of commit up to its commit point. */
    method LogIt() returns (ok: bool)
      requires Shape() && Quiet(cache.bufs, block[..n]) && 0 < n
      modifies cache
      ensures Shape() && Quiet(cache.bufs, block[..n]) && (ok <==> n < cache.nbuf)
      ensures !ok ==> Snap(cache) == old(Snap(cache))
      ensures ok ==>
              Did(old(Snap(cache)), Snap(cache),
                  LogWrites(l, old(Logged())) + [Write(l.start, Header(old(cache.view)[l.start], block[..n]))])
    {
      ghost var x, data := Snap(cache), Logged();
      SlotAndHome(l, block[..n], 0);
      assert LogWrites(l, data)[..n] == LogWrites(l, data);
      SlotsOnly(l, x.view, data, n);
      hide ListValid, Coherent, Quiet, Wrote, Header, Loggable, Apply, LogWrites;
      ok := WriteLog();
      if !ok { return; }
      ghost var y := Snap(cache);
      WriteHead(block[..n]);
      DidOneMore(x, y, Snap(cache), LogWrites(l, data), Write(l.start, Header(x.view[l.start], block[..n])));
    }

    /** The half of commit after its commit point. */
    method Install()
      requires Shape() && Quiet(cache.bufs, block[..n]) && 0 < n < cache.nbuf
      modifies this`n, cache
      ensures Shape() && Quiet(cache.bufs, []) && n == 0
      ensures Did(old(Snap(cache)), Snap(cache),
                  Puts(old(block[..n]), old(SlotData())) + [Write(l.start, SetWord(old(cache.view)[l.start], 0, 0))])
    {
      ghost var x, ws := Snap(cache), Puts(block[..n], SlotData());
      assert ws[..n] == ws;
      HomesOnly(l, x.view, block[..n], SlotData(), n);
      HeaderEmpty(x.view[l.start]);
      hide ListValid, Coherent, Quiet, Wrote, Header, Loggable, Apply, Puts;
      InstallTrans(block[..n]);
      ghost var y := Snap(cache);
      n := 0;
      assert block[..n] == [];
      WriteHead([]);
      DidOneMore(x, y, Snap(cache), ws, Write(l.start, SetWord(x.view[l.start], 0, 0)));
    }

    /** One pass of begin_op's loop: false where it would sleep on &log. */
    method BeginOp() returns (granted: bool)
      modifies this`outstanding
      ensures granted <==> !committing && n + (old(outstanding) + 1) * maxop <= l.logsize
      ensures outstanding == if granted then old(outstanding) + 1 else old(outstanding)
    {
      if committing {
        return false;
      } else if n + (outstanding + 1) * maxop > l.logsize {
        return false;
      }
      outstanding := outstanding + 1;
      return true;
    }

    /** end_op: the last operation out commits everything logged so far. It panics exactly if that
        pins every buffer. */
    method EndOp() returns (ok: bool)
      requires Idle() && outstanding >= 1 && !committing
      modifies this`n, this`outstanding, this`committing, cache
      ensures ok <==> old(outstanding) > 1 || old(n) == 0 || old(n) < cache.nbuf
      ensures !ok ==> Snap(cache) == old(Snap(cache))
      ensures ok ==> outstanding == old(outstanding) - 1 && !committing && Idle()
      ensures ok && outstanding > 0 ==> n == old(n) && block == old(block) && Snap(cache) == old(Snap(cache))
      ensures ok && outstanding == 0 ==> n == 0 && Did(old(Snap(cache)), Snap(cache), old(CommitPlan()))
      ensures ok && outstanding == 0 ==> Settled(l, old(Snap(cache)), Snap(cache))
    {
      outstanding := outstanding - 1;
      ok := true;
      if outstanding == 0 {
        committing := true;
        ok := Commit();
        if !ok { return; }
        committing := false;
      }
    }

    /** log_write on a held buffer; false where it panics. */
    method LogWrite(i: nat) returns (ok: bool)
      requires Shape() && i < cache.nbuf && cache.bufs[i].busy && cache.bufs[i].valid
      modifies this`n, this`block, cache`bufs
      ensures ok <==> old(n) < l.logsize && old(n) < l.size - 1 && outstanding >= 1
      ensures !ok ==> n == old(n) && block == old(block) && cache.bufs == old(cache.bufs)
      ensures ok ==> n <= |block| == |old(block)| && block[..n] == Absorb(old(block[..n]), old(cache.bufs[i].blockno))
      ensures ok ==> cache.Valid() && cache.bufs == old(cache.bufs)[i := old(cache.bufs[i]).(dirty := true)]
    {
      if n >= l.logsize || n >= l.size - 1 || outstanding < 1 {
        return false;
      }
      var b := cache.bufs[i].blockno;
      var j := 0;
      while j < n && block[j] != b
        invariant 0 <= j <= n
        invariant b !in block[..j]
      {
        assert block[..j + 1] == block[..j] + [block[j]];
        j := j + 1;
      }
      assert j < n ==> block[..n][j] == b;
      block := block[j := b];
      if j == n {
        n := n + 1;
      }
      assert block[..n] == Absorb(old(block[..n]), b);
      cache.MarkDirty(i);
      return true;
    }

    /** The use log_write is made for: bread, modify, log_write, brelse; false where one panics. */
    method Update(b: nat, data: Block) returns (ok: bool)
      requires Idle() && Home(l, b)
      modifies this`n, this`block, cache
      ensures ok <==>
                && old(n) < l.logsize && old(n) < l.size - 1 && outstanding >= 1
                && (b in old(block[..n]) || old(n) < cache.nbuf)
      ensures cache.trace == old(cache.trace) && cache.disk == old(cache.disk)
      ensures ok ==> Idle() && block[..n] == Absorb(old(block[..n]), b)
      ensures ok ==> Snap(cache) == old(Snap(cache)).(view := old(cache.view)[b := data])
    {
      hide ListValid, Distinct;
      ghost var bufs0, blocks := cache.bufs, block[..n];
      assert Distinct(blocks) by { LoggableDistinct(l, blocks); }
      hide ListValid, Coherent, Clean;
      var i;
      ok, i := Fetch(cache, b, blocks);
      if !ok { return; }
      cache.Modify(i, data);
      ok := LogWrite(i);
      if ok {
        cache.Brelse(i);
        assert cache.bufs == bufs0[i := cache.bufs[i]];
        QuietPin(bufs0, blocks, i, cache.bufs[i]);
        AbsorbLoggable(l, blocks, b);
      }
    }
  }

  lemma AbsorbLoggable(l: Layout, blocks: seq<nat>, b: nat)
    requires Loggable(l, blocks) && |blocks| < Capacity(l) && Home(l, b)
    ensures Loggable(l, Absorb(blocks, b))
  {}

  lemma CommitLeavesClean(l: Layout, x: Snapshot, z: Snapshot, blocks: seq<nat>)
    requires Clean(l, x.disk) && Loggable(l, blocks) && |x.view| == l.blocks
    requires Did(x, z, CommitWrites(l, x.disk, Tx(blocks, Gather(x.view, blocks))))
    ensures Clean(l, z.disk)
  {
    hide Apply, CommitWrites, Contents, Word;
    var tx := Tx(blocks, Gather(x.view, blocks));
    var ws := CommitWrites(l, x.disk, tx);
    CommitCrash(l, x.disk, tx, |ws|);
    assert ws[..|ws|] == ws;
  }
}
