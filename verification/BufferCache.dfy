/** The buffer cache of bio.c over the disk of memide.c: a static array of buffers threaded on a
    doubly linked list in order of release, most recent first. */
module BufferCache {
  import opened Blocks

  const DISK := 1       // the only device iderw serves
  const NODEV := -1     // device of a buffer that has never held a block

  datatype Buf = Buf(busy: bool, valid: bool, dirty: bool, dev: int, blockno: nat, data: Block)

  datatype Write = Write(blockno: nat, data: Block)

  /** What bget comes back with: a buffer marked busy, a buffer to sleep on, or a panic. */
  datatype Got = Buffer(index: nat) | Sleeping(index: nat) | NoBuffers

  // ----- the linked list -----

  ghost predicate Distinct<T>(s: seq<T>)
  {
    forall i, j | 0 <= i < j < |s| :: s[i] != s[j]
  }

  /** `next` and `prev` thread the ring head, order[0], order[1], ..., head. */
  ghost predicate Ring(head: nat, order: seq<nat>, next: seq<nat>, prev: seq<nat>)
  {
    var c := [head] + order + [head];
    && Distinct(order)
    && |next| == |prev| == head + 1
    && (forall k | 0 <= k < |order| :: order[k] < head)
    && (forall k | 0 <= k < |c| - 1 :: Linked(c, next, prev, k))
  }

  ghost predicate Linked(c: seq<nat>, next: seq<nat>, prev: seq<nat>, k: nat)
    requires k + 1 < |c|
  {
    && c[k] < |next| && c[k+1] < |prev|
    && next[c[k]] == c[k+1] && prev[c[k+1]] == c[k]
  }

  ghost function Without<T>(s: seq<T>, k: nat): seq<T>
    requires k < |s|
  {
    s[..k] + s[k+1..]
  }

  lemma UnlinkKeepsRing(head: nat, order: seq<nat>, next: seq<nat>, prev: seq<nat>, k: nat)
    requires Ring(head, order, next, prev) && k < |order|
    ensures var i := order[k]; next[i] <= head && prev[i] <= head
    ensures var i := order[k];
            Ring(head, Without(order, k), next[prev[i] := next[i]], prev[next[i] := prev[i]])
  {
    var c := [head] + order + [head];
    var i := order[k];
    var d := [head] + Without(order, k) + [head];
    assert c[k+1] == i && Linked(c, next, prev, k) && Linked(c, next, prev, k+1);
    assert prev[i] == c[k] && next[i] == c[k+2];
    var next', prev' := next[prev[i] := next[i]], prev[next[i] := prev[i]];
    assert forall j | 0 <= j < |d| :: d[j] == if j <= k then c[j] else c[j+1];
    forall j | 0 <= j < |d| - 1
      ensures Linked(d, next', prev', j)
    {
      if j < k {
        assert Linked(c, next, prev, j);
        assert d[j+1] == c[j+1] == order[j];
      } else if j > k {
        assert Linked(c, next, prev, j+1);
        assert c[j+1] == order[j];
      }
    }
  }

  lemma PushKeepsRing(head: nat, order: seq<nat>, next: seq<nat>, prev: seq<nat>, i: nat)
    requires Ring(head, order, next, prev) && i < head && i !in order
    ensures next[head] <= head
    ensures Ring(head, [i] + order, next[i := next[head]][head := i], prev[i := head][next[head] := i])
  {
    var c := [head] + order + [head];
    var d := [head] + ([i] + order) + [head];
    assert Linked(c, next, prev, 0);
    var next', prev' := next[i := next[head]][head := i], prev[i := head][next[head] := i];
    assert forall j | 0 <= j < |d| :: d[j] == if j == 0 then head else if j == 1 then i else c[j-1];
    forall j | 0 <= j < |d| - 1
      ensures Linked(d, next', prev', j)
    {
      if j >= 2 {
        assert Linked(c, next, prev, j-1);
        assert c[j-1] == order[j-2];
        if j < |d| - 2 { assert c[j] == order[j-1]; }
      }
    }
  }

  /** The list is a permutation of the buffers, sorted by time of last release. */
  ghost predicate Recency(nbuf: nat, order: seq<nat>, stamp: seq<int>, clock: int)
  {
    && |order| == |stamp| == nbuf
    && (forall k | 0 <= k < nbuf :: order[k] < nbuf)
    && (forall i | 0 <= i < nbuf :: i in order)
    && (forall j, k | 0 <= j < k < nbuf :: stamp[order[j]] > stamp[order[k]])
    && (forall i | 0 <= i < nbuf :: stamp[i] < clock)
  }

  ghost predicate ListValid(nbuf: nat, order: seq<nat>, next: seq<nat>, prev: seq<nat>, stamp: seq<int>, clock: int)
  {
    Ring(nbuf, order, next, prev) && Recency(nbuf, order, stamp, clock)
  }

  /** The buffer at position k moves to the front and is stamped. */
  lemma Released(nbuf: nat, order: seq<nat>, stamp: seq<int>, clock: int, k: nat)
    requires Recency(nbuf, order, stamp, clock) && k < nbuf
    ensures order[k] !in Without(order, k)
    ensures Recency(nbuf, [order[k]] + Without(order, k), stamp[order[k] := clock], clock + 1)
  {
    var order', stamp' := [order[k]] + Without(order, k), stamp[order[k] := clock];
    forall j, m | 0 <= j < m < nbuf ensures stamp'[order'[j]] > stamp'[order'[m]] {
      ReleasedOrder(nbuf, order, stamp, clock, k, j, m);
    }
    forall m | 0 <= m < nbuf - 1 ensures Without(order, k)[m] != order[k] {
      ReleasedOrder(nbuf, order, stamp, clock, k, 0, m + 1);
      assert order'[m + 1] == Without(order, k)[m];
    }
    hide Without;
    forall j | 0 <= j < nbuf ensures j in order' {
      StillListed(order, k, j);
    }
  }

  lemma ReleasedOrder(nbuf: nat, order: seq<nat>, stamp: seq<int>, clock: int, k: nat, j: nat, m: nat)
    requires Recency(nbuf, order, stamp, clock) && k < nbuf && j < m < nbuf
    ensures var order', stamp' := [order[k]] + Without(order, k), stamp[order[k] := clock];
            order'[m] != order[k] && order'[j] < nbuf && order'[m] < nbuf && stamp'[order'[j]] > stamp'[order'[m]]
  {
    var j', m' := if j <= k then j - 1 else j, if m <= k then m - 1 else m;
    assert ([order[k]] + Without(order, k))[m] == order[m'];
    assert m' != k;
    if j > 0 {
      assert ([order[k]] + Without(order, k))[j] == order[j'];
    }
  }

  lemma StillListed(order: seq<nat>, k: nat, j: nat)
    requires k < |order| && j in order
    ensures j in [order[k]] + Without(order, k)
  {
    var m :| 0 <= m < |order| && order[m] == j;
    var order' := [order[k]] + Without(order, k);
    assert j == if m < k then order'[m + 1] else if m == k then order'[0] else order'[m];
  }

  /** Unlinking a buffer and pushing it at the head keeps the list valid. */
  lemma MoveToFront(nbuf: nat, order: seq<nat>, next: seq<nat>, prev: seq<nat>, stamp: seq<int>, clock: int, i: nat)
    returns (k: nat)
    requires ListValid(nbuf, order, next, prev, stamp, clock) && i < nbuf
    ensures k < nbuf && order[k] == i
    ensures i != next[i] <= nbuf && i != prev[i] <= nbuf
    ensures var prev1, next1 := prev[next[i] := prev[i]], next[prev[i] := next[i]];
            && next1[nbuf] <= nbuf
            && ListValid(nbuf, [i] + Without(order, k), next1[i := next1[nbuf]][nbuf := i],
                         prev1[i := nbuf][next1[nbuf] := i], stamp[i := clock], clock + 1)
  {
    assert i in order;
    k :| 0 <= k < nbuf && order[k] == i;
    Released(nbuf, order, stamp, clock, k);
    NeighboursDiffer(nbuf, order, next, prev, k);
    UnlinkKeepsRing(nbuf, order, next, prev, k);
    hide Ring, Recency;
    PushKeepsRing(nbuf, Without(order, k), next[prev[i] := next[i]], prev[next[i] := prev[i]], i);
  }

  lemma NeighboursDiffer(head: nat, order: seq<nat>, next: seq<nat>, prev: seq<nat>, k: nat)
    requires Ring(head, order, next, prev) && k < |order|
    ensures var i := order[k]; i < head < |next| == |prev| && i != next[i] <= head && i != prev[i] <= head
  {
    var c := [head] + order + [head];
    assert Linked(c, next, prev, k) && Linked(c, next, prev, k + 1);
  }

  // ----- buffers, disk and the abstract block map -----

  ghost predicate Holds(buf: Buf, dev: int, b: nat)
  {
    buf.dev == dev && buf.blockno == b
  }

  ghost predicate Eligible(buf: Buf)
  {
    !buf.busy && !buf.dirty
  }

  ghost predicate Unsaved(buf: Buf)
  {
    buf.valid && (buf.dirty || buf.busy)
  }

  /** A busy or dirty buffer holds block b. */
  ghost predicate Pending(bufs: seq<Buf>, b: nat)
  {
    exists i :: 0 <= i < |bufs| && bufs[i].blockno == b && Unsaved(bufs[i])
  }

  ghost predicate Agrees(buf: Buf, view: seq<Block>)
  {
    && (buf.dirty ==> buf.valid)
    && (buf.valid ==> buf.dev == DISK && buf.blockno < |view| && view[buf.blockno] == buf.data)
    && (!buf.busy && !buf.valid ==> buf.dev == NODEV)
  }

  ghost predicate OneBufferEach(bufs: seq<Buf>)
  {
    forall i, j | 0 <= i < j < |bufs| :: bufs[i].dev == NODEV || !Holds(bufs[j], bufs[i].dev, bufs[i].blockno)
  }

  /** One buffer a block; buffers agree with the abstract block map `view`; the disk lags behind
      `view` only where a busy or dirty buffer holds the newer contents. */
  ghost predicate Coherent(bufs: seq<Buf>, disk: seq<Block>, view: seq<Block>)
  {
    && |view| == |disk|
    && OneBufferEach(bufs)
    && (forall i | 0 <= i < |bufs| :: Agrees(bufs[i], view))
    && (forall b | 0 <= b < |disk| :: view[b] != disk[b] ==> Pending(bufs, b))
  }

  /** A buffer may change its flags, or give up its block, as long as nothing unsaved is lost. */
  lemma UpdateCoherent(bufs: seq<Buf>, disk: seq<Block>, view: seq<Block>, k: nat, buf: Buf)
    requires Coherent(bufs, disk, view) && k < |bufs| && Agrees(buf, view)
    requires Unsaved(bufs[k]) && view[bufs[k].blockno] != disk[bufs[k].blockno] ==>
              Unsaved(buf) && buf.blockno == bufs[k].blockno
    requires buf.dev == NODEV || forall i | 0 <= i < |bufs| && i != k :: !Holds(bufs[i], buf.dev, buf.blockno)
    ensures Coherent(bufs[k := buf], disk, view)
  {
    var bufs' := bufs[k := buf];
    forall b | 0 <= b < |disk| && view[b] != disk[b] ensures Pending(bufs', b) {
      var i :| 0 <= i < |bufs| && bufs[i].blockno == b && Unsaved(bufs[i]);
      assert bufs'[i].blockno == b;
    }
  }

  /** A client may change the data of the buffer it holds. */
  lemma ModifyCoherent(bufs: seq<Buf>, disk: seq<Block>, view: seq<Block>, k: nat, data: Block)
    requires Coherent(bufs, disk, view) && k < |bufs| && bufs[k].busy && bufs[k].valid
    ensures Coherent(bufs[k := bufs[k].(data := data)], disk, view[bufs[k].blockno := data])
  {
    var bufs', x := bufs[k := bufs[k].(data := data)], bufs[k].blockno;
    forall i | 0 <= i < |bufs| ensures Agrees(bufs'[i], view[x := data]) {
      assert Agrees(bufs[i], view);
      assert i != k && bufs[i].valid ==> !Holds(bufs[i], DISK, x);
    }
    forall b | 0 <= b < |disk| && view[x := data][b] != disk[b] ensures Pending(bufs', b) {
      if b == x {
        assert Unsaved(bufs'[k]);
      } else {
        var i :| 0 <= i < |bufs| && bufs[i].blockno == b && Unsaved(bufs[i]);
        assert bufs'[i].blockno == b;
      }
    }
  }

  /** Bringing the disk up to date with a held block. */
  lemma WriteCoherent(bufs: seq<Buf>, disk: seq<Block>, view: seq<Block>, x: nat)
    requires Coherent(bufs, disk, view) && x < |disk|
    ensures Coherent(bufs, disk[x := view[x]], view)
  {
  }

  /** A block that no valid buffer holds is up to date on disk. */
  lemma UncachedIsOnDisk(bufs: seq<Buf>, disk: seq<Block>, view: seq<Block>, b: nat)
    requires Coherent(bufs, disk, view) && b < |disk|
    requires forall i | 0 <= i < |bufs| :: bufs[i].blockno == b ==> !Unsaved(bufs[i])
    ensures view[b] == disk[b]
  {
  }

  // ----- the cache -----

  class Cache {
    const nbuf: nat                 // NBUF
    var bufs: seq<Buf>              // bcache.buf
    var next: seq<nat>              // list links; index nbuf is bcache.head
    var prev: seq<nat>
    var disk: seq<Block>            // memdisk
    ghost var trace: seq<Write>     // every write that reached the disk, oldest first
    ghost var view: seq<Block>      // latest contents of every block
    ghost var order: seq<nat>       // the list from head.next on
    ghost var stamp: seq<int>       // when each buffer was last released
    ghost var clock: int

    ghost predicate Valid()
      reads this
    {
      && |bufs| == nbuf
      && ListValid(nbuf, order, next, prev, stamp, clock)
      && Coherent(bufs, disk, view)
    }

    /** binit: thread the buffers one by one behind the head. */
    constructor (nbuf: nat, disk: seq<Block>)
      ensures Valid() && this.nbuf == nbuf && this.disk == disk
      ensures view == disk && trace == []
      ensures forall i | 0 <= i < nbuf :: bufs[i] == Buf(false, false, false, NODEV, 0, ZERO)
    {
      this.nbuf := nbuf;
      this.disk := disk;
      this.view := disk;
      this.trace := [];
      bufs := seq(nbuf, _ => Buf(false, false, false, NODEV, 0, ZERO));
      next := seq(nbuf + 1, _ => nbuf);
      prev := seq(nbuf + 1, _ => nbuf);
      order := [];
      stamp := [];
      clock := 0;
      new;
      var b := 0;
      while b < nbuf
        invariant 0 <= b <= nbuf
        invariant Ring(nbuf, order, next, prev)
        invariant |order| == |stamp| == clock == b
        invariant forall k | 0 <= k < b :: order[k] == b - 1 - k
        invariant forall i | 0 <= i < b :: stamp[i] == i
        modifies this`next, this`prev, this`order, this`stamp, this`clock
      {
        PushKeepsRing(nbuf, order, next, prev, b);
        next := next[b := next[nbuf]];
        prev := prev[b := nbuf];
        prev := prev[next[nbuf] := b];
        next := next[nbuf := b];
        order := [b] + order;
        stamp := stamp + [clock];
        clock := clock + 1;
        b := b + 1;
      }
      forall i | 0 <= i < nbuf ensures i in order { assert order[nbuf - 1 - i] == i; }
    }

    /** bget's first loop: walk the list forwards for the block. */
    method FindBlock(dev: int, blockno: nat) returns (b: nat)
      requires Valid()
      ensures b <= nbuf
      ensures b < nbuf ==> Holds(bufs[b], dev, blockno)
      ensures b == nbuf ==> forall i | 0 <= i < nbuf :: !Holds(bufs[i], dev, blockno)
    {
      ghost var c := [nbuf] + order + [nbuf];
      assert Linked(c, next, prev, 0);
      b := next[nbuf];
      ghost var k := 0;
      while b != nbuf
        invariant 0 <= k <= nbuf && b == c[k+1]
        invariant forall j | 0 <= j < k :: !Holds(bufs[order[j]], dev, blockno)
        decreases nbuf - k
      {
        assert b == order[k];
        if bufs[b].dev == dev && bufs[b].blockno == blockno {
          return;
        }
        assert Linked(c, next, prev, k+1);
        b := next[b];
        k := k + 1;
      }
      forall i | 0 <= i < nbuf ensures !Holds(bufs[i], dev, blockno) {
        assert i in order;
      }
    }

    /** bget's second loop: walk the list backwards for a buffer that is neither busy nor dirty. */
    method FindVictim() returns (b: nat)
      requires Valid()
      ensures b <= nbuf
      ensures b < nbuf ==>
                Eligible(bufs[b]) && forall j | 0 <= j < nbuf && j != b && Eligible(bufs[j]) :: stamp[b] < stamp[j]
      ensures b == nbuf ==> forall i | 0 <= i < nbuf :: !Eligible(bufs[i])
    {
      ghost var c := [nbuf] + order + [nbuf];
      assert Linked(c, next, prev, nbuf);
      b := prev[nbuf];
      ghost var k := nbuf;
      while b != nbuf
        invariant 0 <= k <= nbuf && b == c[k]
        invariant forall j | k <= j < nbuf :: !Eligible(bufs[order[j]])
        decreases k
      {
        assert b == order[k-1];
        if !bufs[b].busy && !bufs[b].dirty {
          forall j | 0 <= j < nbuf && j != b && Eligible(bufs[j]) ensures stamp[b] < stamp[j] {
            assert j in order;
          }
          return;
        }
        assert Linked(c, next, prev, k-1);
        b := prev[b];
        k := k - 1;
      }
      forall i | 0 <= i < nbuf ensures !Eligible(bufs[i]) {
        assert i in order;
      }
    }

    /** bget: a cached block comes back as it is; otherwise the least recently released buffer
        that is neither busy nor dirty is recycled. */
    method Bget(dev: int, blockno: nat) returns (r: Got)
      requires Valid() && dev != NODEV
      modifies this`bufs
      ensures Valid()
      ensures !r.Buffer? ==> bufs == old(bufs)
      ensures r.NoBuffers? <==>
                (forall i | 0 <= i < nbuf :: !Holds(old(bufs)[i], dev, blockno) && !Eligible(old(bufs)[i]))
      ensures r.Sleeping? <==> (exists i | 0 <= i < nbuf :: Holds(old(bufs)[i], dev, blockno) && old(bufs)[i].busy)
      ensures r.Buffer? ==> r.index < nbuf && Obtained(old(bufs), r.index, dev, blockno)
      ensures r.Buffer? ==> bufs == old(bufs)[r.index :=
                if Holds(old(bufs)[r.index], dev, blockno) then old(bufs)[r.index].(busy := true)
                else Buf(true, false, false, dev, blockno, old(bufs)[r.index].data)]
    {
      var b := FindBlock(dev, blockno);
      if b < nbuf {
        if bufs[b].busy {
          return Sleeping(b);
        }
        UpdateCoherent(bufs, disk, view, b, bufs[b].(busy := true));
        bufs := bufs[b := bufs[b].(busy := true)];
        return Buffer(b);
      }
      b := FindVictim();
      if b < nbuf {
        UpdateCoherent(bufs, disk, view, b, Buf(true, false, false, dev, blockno, bufs[b].data));
        bufs := bufs[b := Buf(true, false, false, dev, blockno, bufs[b].data)];
        return Buffer(b);
      }
      return NoBuffers;
    }

    /** Which buffer bget may hand out: the one that holds the block if there is one, else the
        least recently released of the eligible ones. */
    ghost predicate Obtained(bufs: seq<Buf>, k: nat, dev: int, blockno: nat)
      reads this`stamp
      requires k < |bufs| <= |stamp|
    {
      && !bufs[k].busy
      && (Holds(bufs[k], dev, blockno) ||
          (&& (forall i | 0 <= i < |bufs| :: !Holds(bufs[i], dev, blockno))
           && Eligible(bufs[k])
           && (forall j | 0 <= j < |bufs| && j != k && Eligible(bufs[j]) :: stamp[k] < stamp[j])))
    }

    /** iderw: write a dirty buffer to its sector, or read an invalid one from it. */
    method Iderw(i: nat)
      requires Valid() && i < nbuf && bufs[i].busy
      requires bufs[i].dirty || !bufs[i].valid
      requires bufs[i].dev == DISK && bufs[i].blockno < |disk|
      modifies this`bufs, this`disk, this`trace
      ensures Valid()
      ensures old(bufs[i].dirty) ==>
                && bufs == old(bufs)[i := old(bufs[i]).(dirty := false)]
                && disk == old(disk)[old(bufs[i].blockno) := old(bufs[i].data)]
                && trace == old(trace) + [Write(old(bufs[i].blockno), old(bufs[i].data))]
      ensures !old(bufs[i].dirty) ==>
                && bufs == old(bufs)[i := old(bufs[i]).(valid := true, data := view[old(bufs[i].blockno)])]
                && disk == old(disk) && trace == old(trace)
    {
      var b := bufs[i].blockno;
      if bufs[i].dirty {
        WriteCoherent(bufs, disk, view, b);
        UpdateCoherent(bufs, disk[b := view[b]], view, i, bufs[i].(dirty := false));
        bufs := bufs[i := bufs[i].(dirty := false)];
        disk := disk[b := bufs[i].data];
        trace := trace + [Write(b, bufs[i].data)];
      } else {
        UncachedIsOnDisk(bufs, disk, view, b);
        UpdateCoherent(bufs, disk, view, i, bufs[i].(valid := true, data := disk[b]));
        bufs := bufs[i := bufs[i].(valid := true, data := disk[b])];
      }
    }

    /** bread: a busy buffer with the latest contents of the block. */
    method Bread(b: nat) returns (r: Got)
      requires Valid() && b < |disk|
      modifies this`bufs, this`disk, this`trace
      ensures Valid() && disk == old(disk) && trace == old(trace)
      ensures !r.Buffer? ==> bufs == old(bufs)
      ensures r.NoBuffers? <==> (forall i | 0 <= i < nbuf :: !Holds(old(bufs)[i], DISK, b) && !Eligible(old(bufs)[i]))
      ensures r.Sleeping? <==> (exists i | 0 <= i < nbuf :: Holds(old(bufs)[i], DISK, b) && old(bufs)[i].busy)
      ensures r.Buffer? ==> r.index < nbuf && Obtained(old(bufs), r.index, DISK, b)
      ensures r.Buffer? ==> bufs == old(bufs)[r.index := Buf(true, true, old(bufs)[r.index].dirty, DISK, b, view[b])]
    {
      r := Bget(DISK, b);
      if r.Buffer? && !bufs[r.index].valid {
        Iderw(r.index);
      }
    }

    /** A client of bread stores into the data of the buffer it holds. */
    method Modify(i: nat, data: Block)
      requires Valid() && i < nbuf && bufs[i].busy && bufs[i].valid
      modifies this`bufs, this`view
      ensures Valid()
      ensures bufs == old(bufs)[i := old(bufs[i]).(data := data)]
      ensures view == old(view)[old(bufs[i].blockno) := data]
    {
      ModifyCoherent(bufs, disk, view, i, data);
      view := view[bufs[i].blockno := data];
      bufs := bufs[i := bufs[i].(data := data)];
    }

    /** `b->flags |= B_DIRTY`: pin the buffer until the log writes it. */
    method MarkDirty(i: nat)
      requires Valid() && i < nbuf && bufs[i].busy && bufs[i].valid
      modifies this`bufs
      ensures Valid()
      ensures bufs == old(bufs)[i := old(bufs[i]).(dirty := true)]
    {
      UpdateCoherent(bufs, disk, view, i, bufs[i].(dirty := true));
      bufs := bufs[i := bufs[i].(dirty := true)];
    }

    /** bwrite: one block write; afterwards disk and `view` agree on the block. */
    method Bwrite(i: nat)
      requires Valid() && i < nbuf && bufs[i].busy && bufs[i].valid
      modifies this`bufs, this`disk, this`trace
      ensures Valid()
      ensures bufs == old(bufs)[i := old(bufs[i]).(dirty := false)]
      ensures disk == old(disk)[old(bufs[i].blockno) := view[old(bufs[i].blockno)]]
      ensures trace == old(trace) + [Write(old(bufs[i].blockno), view[old(bufs[i].blockno)])]
    {
      MarkDirty(i);
      Iderw(i);
    }

    /** brelse: move the buffer to the most recently used end. The caller must have saved its
        changes with bwrite or log_write. */
    method Brelse(i: nat)
      requires Valid() && i < nbuf && bufs[i].busy && bufs[i].valid
      requires bufs[i].dirty || bufs[i].data == disk[bufs[i].blockno]
      modifies this`bufs, this`next, this`prev, this`order, this`stamp, this`clock
      ensures Valid()
      ensures bufs == old(bufs)[i := old(bufs[i]).(busy := false)]
      ensures order[0] == i
      ensures stamp == old(stamp)[i := old(clock)]
    {
      ghost var k := MoveToFront(nbuf, order, next, prev, stamp, clock, i);
      prev := prev[next[i] := prev[i]];
      next := next[prev[i] := next[i]];
      next := next[i := next[nbuf]];
      prev := prev[i := nbuf];
      prev := prev[next[nbuf] := i];
      next := next[nbuf := i];
      order := [i] + Without(order, k);
      stamp := stamp[i := clock];
      clock := clock + 1;
      UpdateCoherent(bufs, disk, view, i, bufs[i].(busy := false));
      bufs := bufs[i := bufs[i].(busy := false)];
    }
  }
}
