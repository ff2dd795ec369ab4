/** What the free list of umalloc.c stands for: address-ordered blocks with gaps between them.
    Addresses and sizes count units of sizeof(Header). */
module FreeList {

  datatype Blk = Blk(addr: int, size: int)

  function End(b: Blk): int { b.addr + b.size }

  /** Every block is above `base`, nonempty, and ends strictly before the next one begins: address
      order, disjointness and full coalescing in one. */
  ghost predicate Spaced(base: int, free: seq<Blk>)
  {
    && (forall i | 0 <= i < |free| :: free[i].size >= 1 && base < free[i].addr)
    && (forall i, j | 0 <= i < j < |free| :: End(free[i]) < free[j].addr)
  }

  ghost predicate Clear(x: Blk, y: Blk)
  {
    End(x) <= y.addr || End(y) <= x.addr
  }

  /** Block b lies between positions k-1 and k of the list. */
  ghost predicate FitsAt(free: seq<Blk>, k: nat, b: Blk)
  {
    && k <= |free|
    && (forall i | 0 <= i < k :: End(free[i]) <= b.addr)
    && (forall i | k <= i < |free| :: End(b) <= free[i].addr)
  }

  ghost predicate JoinsLeft(free: seq<Blk>, k: nat, b: Blk)
    requires k <= |free|
  {
    k > 0 && End(free[k - 1]) == b.addr
  }

  ghost predicate JoinsRight(free: seq<Blk>, k: nat, b: Blk)
    requires k <= |free|
  {
    k < |free| && End(b) == free[k].addr
  }

  /** The first position that stays to the right of an inserted block, and the last to its left. */
  ghost function Lo(free: seq<Blk>, k: nat, b: Blk): nat
    requires k <= |free|
  {
    if JoinsLeft(free, k, b) then k - 1 else k
  }

  ghost function Hi(free: seq<Blk>, k: nat, b: Blk): nat
    requires k <= |free|
  {
    if JoinsRight(free, k, b) then k + 1 else k
  }

  /** The block grown by the neighbours it touches. */
  ghost function Grown(free: seq<Blk>, k: nat, b: Blk): Blk
    requires k <= |free|
  {
    var addr := if JoinsLeft(free, k, b) then free[k - 1].addr else b.addr;
    Blk(addr, (if JoinsRight(free, k, b) then End(free[k]) else End(b)) - addr)
  }

  /** Insertion with coalescing on both sides. */
  ghost function Insert(free: seq<Blk>, k: nat, b: Blk): seq<Blk>
    requires k <= |free|
  {
    free[..Lo(free, k, b)] + [Grown(free, k, b)] + free[Hi(free, k, b)..]
  }

  /** malloc: an exact fit leaves the list, a larger block gives up its tail. */
  ghost function Take(free: seq<Blk>, k: nat, n: int): seq<Blk>
    requires k < |free|
  {
    if free[k].size == n then free[..k] + free[k + 1..]
    else free[k := Blk(free[k].addr, free[k].size - n)]
  }

  /** The block malloc carves out. */
  ghost function Carved(free: seq<Blk>, k: nat, n: int): Blk
    requires k < |free|
  {
    Blk(End(free[k]) - n, n)
  }

  ghost function Span(lo: int, hi: int): (r: set<int>)
    ensures forall x :: x in r <==> lo <= x < hi
    decreases hi - lo
  {
    if hi <= lo then {} else Span(lo, hi - 1) + {hi - 1}
  }

  ghost function BlkUnits(b: Blk): set<int>
  {
    Span(b.addr, End(b))
  }

  ghost function Units(free: seq<Blk>): set<int>
  {
    if |free| == 0 then {} else Units(free[..|free| - 1]) + BlkUnits(free[|free| - 1])
  }

  lemma {:induction false} UnitsConcat(a: seq<Blk>, b: seq<Blk>)
    ensures Units(a + b) == Units(a) + Units(b)
    decreases |b|
  {
    if |b| == 0 {
      assert a + b == a;
    } else {
      UnitsConcat(a, b[..|b| - 1]);
      assert (a + b)[..|a + b| - 1] == a + b[..|b| - 1];
    }
  }

  lemma UnitsOne(b: Blk)
    ensures Units([b]) == BlkUnits(b)
  {
    assert [b][..0] == [];
  }

  lemma UnitsThree(a: seq<Blk>, b: Blk, c: seq<Blk>)
    ensures Units(a + [b] + c) == Units(a) + BlkUnits(b) + Units(c)
  {
    UnitsConcat(a + [b], c);
    UnitsConcat(a, [b]);
    UnitsOne(b);
  }

  /** Which block stands where after an insertion. */
  lemma InsertAt(free: seq<Blk>, k: nat, b: Blk, j: nat)
    requires k <= |free| && j < |Insert(free, k, b)|
    ensures Insert(free, k, b)[j] ==
              if j < Lo(free, k, b) then free[j]
              else if j == Lo(free, k, b) then Grown(free, k, b)
              else free[j - Lo(free, k, b) - 1 + Hi(free, k, b)]
  {}

  lemma InsertSpaced(base: int, free: seq<Blk>, k: nat, b: Blk)
    requires Spaced(base, free) && FitsAt(free, k, b) && b.size >= 1 && base < b.addr
    ensures Spaced(base, Insert(free, k, b))
  {
    var r := Insert(free, k, b);
    forall i | 0 <= i < |r| ensures r[i].size >= 1 && base < r[i].addr { InsertAt(free, k, b, i); }
    forall i, j | 0 <= i < j < |r| ensures End(r[i]) < r[j].addr {
      InsertAt(free, k, b, i);
      InsertAt(free, k, b, j);
    }
  }

  lemma SpanSplit(lo: int, mid: int, hi: int)
    requires lo <= mid <= hi
    ensures Span(lo, hi) == Span(lo, mid) + Span(mid, hi)
  {}

  lemma Shuffle(a: set<int>, m: set<int>, s: set<int>, c: set<int>)
    ensures a + (m + s) + c == a + m + c + s
  {}

  /** A grown block covers the block and the neighbours it swallowed. */
  lemma GrownUnits(free: seq<Blk>, k: nat, b: Blk)
    requires k <= |free| && b.size >= 1
    requires forall i | 0 <= i < |free| :: free[i].size >= 1
    ensures BlkUnits(Grown(free, k, b)) == Units(free[Lo(free, k, b)..Hi(free, k, b)]) + BlkUnits(b)
  {
    var lo, hi, g := Lo(free, k, b), Hi(free, k, b), Grown(free, k, b);
    var m := free[lo..hi];
    if lo < k && k < hi {
      var x, y := free[k - 1], free[k];
      assert m == [x] + [y];
      UnitsConcat([x], [y]);
      UnitsOne(x);
      UnitsOne(y);
      SpanSplit(g.addr, b.addr, End(g));
      SpanSplit(b.addr, End(b), End(g));
    } else if lo < k {
      assert m == [free[k - 1]];
      UnitsOne(free[k - 1]);
      SpanSplit(g.addr, b.addr, End(g));
    } else if k < hi {
      assert m == [free[k]];
      UnitsOne(free[k]);
      SpanSplit(g.addr, End(b), End(g));
    }
  }

  /** Freeing adds exactly the units of the block. */
  lemma InsertUnits(base: int, free: seq<Blk>, k: nat, b: Blk)
    requires Spaced(base, free) && FitsAt(free, k, b) && b.size >= 1
    ensures Units(Insert(free, k, b)) == Units(free) + BlkUnits(b)
  {
    var lo, hi := Lo(free, k, b), Hi(free, k, b);
    var a, m, c := free[..lo], free[lo..hi], free[hi..];
    assert free == a + m + c;
    GrownUnits(free, k, b);
    hide Units, BlkUnits, Grown, Spaced, FitsAt;
    UnitsConcat(a + m, c);
    UnitsConcat(a, m);
    UnitsThree(a, Grown(free, k, b), c);
    Shuffle(Units(a), Units(m), BlkUnits(b), Units(c));
  }

  lemma TakeSpaced(base: int, free: seq<Blk>, k: nat, n: int)
    requires Spaced(base, free) && k < |free| && 1 <= n <= free[k].size
    ensures Spaced(base, Take(free, k, n))
    ensures forall i | 0 <= i < |Take(free, k, n)| :: Clear(Take(free, k, n)[i], Carved(free, k, n))
  {}

  /** Allocation removes exactly the units of the block it hands out. */
  lemma TakeUnits(base: int, free: seq<Blk>, k: nat, n: int)
    requires Spaced(base, free) && k < |free| && 1 <= n <= free[k].size
    ensures Units(free) == Units(Take(free, k, n)) + BlkUnits(Carved(free, k, n))
    ensures Units(Take(free, k, n)) !! BlkUnits(Carved(free, k, n))
  {
    TakeSpaced(base, free, k, n);
    ClearUnits(Take(free, k, n), Carved(free, k, n));
    TakeSum(free, k, n);
  }

  lemma TakeSum(free: seq<Blk>, k: nat, n: int)
    requires k < |free| && 1 <= n <= free[k].size
    ensures Units(free) == Units(Take(free, k, n)) + BlkUnits(Carved(free, k, n))
  {
    hide Units, BlkUnits;
    var a, x, c := free[..k], free[k], free[k + 1..];
    var rest, got := Blk(x.addr, x.size - n), Carved(free, k, n);
    assert free == a + [x] + c;
    UnitsThree(a, x, c);
    if x.size == n {
      assert got == x;
      UnitsConcat(a, c);
      Shuffle(Units(a), {}, BlkUnits(got), Units(c));
    } else {
      SplitBlk(x, n);
      assert Take(free, k, n) == a + [rest] + c;
      UnitsThree(a, rest, c);
      Shuffle(Units(a), BlkUnits(rest), BlkUnits(got), Units(c));
    }
  }

  lemma SplitBlk(x: Blk, n: int)
    requires 0 <= n <= x.size
    ensures BlkUnits(x) == BlkUnits(Blk(x.addr, x.size - n)) + BlkUnits(Blk(End(x) - n, n))
  {
    SpanSplit(x.addr, End(x) - n, End(x));
  }

  lemma {:induction false} ClearUnits(free: seq<Blk>, b: Blk)
    requires forall i | 0 <= i < |free| :: Clear(free[i], b)
    ensures Units(free) !! BlkUnits(b)
  {
    if |free| > 0 { ClearUnits(free[..|free| - 1], b); }
  }

  lemma {:induction false} UnitsAt(free: seq<Blk>, i: nat)
    requires i < |free|
    ensures BlkUnits(free[i]) <= Units(free)
  {
    if i < |free| - 1 { UnitsAt(free[..|free| - 1], i); }
  }

  /** Where a block that is clear of the free list goes. */
  lemma {:induction false} Position(base: int, free: seq<Blk>, b: Blk) returns (k: nat)
    requires Spaced(base, free) && b.size >= 1 && forall i | 0 <= i < |free| :: Clear(free[i], b)
    ensures FitsAt(free, k, b)
  {
    var n := |free| - 1;
    if |free| == 0 {
      k := 0;
    } else if End(free[n]) <= b.addr {
      k := |free|;
    } else {
      k := Position(base, free[..n], b);
    }
  }
}
