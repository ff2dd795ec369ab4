/** umalloc.c: the circular free list threaded through block headers. Addresses count units of
    sizeof(Header), so that pointer arithmetic on Header* is integer arithmetic. */
module Umalloc {
  import opened FreeList

  const NULL := 0

  /** Header addresses on the list: `base`, then the free blocks in address order. */
  ghost function Node(base: int, free: seq<Blk>, k: nat): int
    requires k <= |free|
  {
    if k == 0 then base else free[k - 1].addr
  }

  ghost function NodeSize(free: seq<Blk>, k: nat): int
    requires k <= |free|
  {
    if k == 0 then 0 else free[k - 1].size
  }

  ghost function Succ(free: seq<Blk>, k: nat): nat
  {
    if k == |free| then 0 else k + 1
  }

  ghost predicate LinkOk(base: int, free: seq<Blk>, ptr: map<int, int>, size: map<int, int>, k: nat)
    requires k <= |free|
  {
    var a := Node(base, free, k);
    && a in ptr && ptr[a] == Node(base, free, Succ(free, k))
    && a in size && size[a] == NodeSize(free, k)
  }

  /** The s.ptr and s.size fields thread the list in address order, the last block back to base. */
  ghost predicate Linked(base: int, free: seq<Blk>, ptr: map<int, int>, size: map<int, int>)
  {
    forall k | 0 <= k <= |free| :: LinkOk(base, free, ptr, size, k)
  }

  lemma NodesAscend(base: int, free: seq<Blk>, i: nat, j: nat)
    requires Spaced(base, free) && i < j <= |free|
    ensures Node(base, free, i) <= Node(base, free, i) + NodeSize(free, i) < Node(base, free, j)
  {}

  // ----- free: the pointer updates -----

  /** `if(bp + bp->s.size == p->s.ptr) ... else ...` */
  ghost function JoinUpper(ptr: map<int, int>, size: map<int, int>, p: int, b: int): (map<int, int>, map<int, int>)
    requires p in ptr && b in size && ptr[p] in size && ptr[p] in ptr
  {
    var next := ptr[p];
    if b + size[b] == next then (ptr[b := ptr[next]], size[b := size[b] + size[next]]) else (ptr[b := next], size)
  }

  /** `if(p + p->s.size == bp) ... else ...` */
  ghost function JoinLower(ptr: map<int, int>, size: map<int, int>, p: int, b: int): (map<int, int>, map<int, int>)
    requires p in size && b in size && b in ptr
  {
    if p + size[p] == b then (ptr[p := ptr[b]], size[p := size[p] + size[b]]) else (ptr[p := b], size)
  }

  /** Both updates, as free() makes them. */
  ghost function Relinked(base: int, free: seq<Blk>, ptr: map<int, int>, size: map<int, int>, t: nat,
                          b: Blk): (r: (map<int, int>, map<int, int>))
    requires Linked(base, free, ptr, size) && FitsAt(free, t, b) && b.addr in size
  {
    var p := Node(base, free, t);
    assert LinkOk(base, free, ptr, size, t) && LinkOk(base, free, ptr, size, Succ(free, t));
    var u := JoinUpper(ptr, size, p, b.addr);
    JoinLower(u.0, u.1, p, b.addr)
  }

  ghost predicate Freeable(base: int, free: seq<Blk>, ptr: map<int, int>, size: map<int, int>, t: nat, b: Blk)
  {
    && Linked(base, free, ptr, size) && Spaced(base, free)
    && FitsAt(free, t, b) && b.size >= 1 && base < b.addr && b.addr in size && size[b.addr] == b.size
  }

  /** What the updates leave in the headers of the predecessor and of the block itself. */
  lemma RelinkedAt(base: int, free: seq<Blk>, ptr: map<int, int>, size: map<int, int>, t: nat, b: Blk)
    requires Freeable(base, free, ptr, size, t, b)
    ensures var r, p, g := Relinked(base, free, ptr, size, t, b), Node(base, free, t), Grown(free, t, b);
            var after := if JoinsRight(free, t, b) then Succ(free, Succ(free, t)) else Succ(free, t);
            && p in r.0 && p in r.1 && p in size && b.addr in r.0 && b.addr in r.1
            && (if JoinsLeft(free, t, b)
                then r.0[p] == Node(base, free, after) && r.1[p] == g.size
                else && r.0[p] == b.addr && r.1[p] == size[p]
                     && r.0[b.addr] == Node(base, free, after) && r.1[b.addr] == g.size)
    ensures var r, p := Relinked(base, free, ptr, size, t, b), Node(base, free, t);
            forall x | x != p && x != b.addr ::
              (x in ptr ==> x in r.0 && r.0[x] == ptr[x]) && (x in size ==> x in r.1 && r.1[x] == size[x])
  {
    assert LinkOk(base, free, ptr, size, t) && LinkOk(base, free, ptr, size, Succ(free, t));
    hide Linked;
  }

  /** The two updates insert the block with coalescing. */
  lemma FreeLinks(base: int, free: seq<Blk>, ptr: map<int, int>, size: map<int, int>, t: nat, b: Blk)
    requires Freeable(base, free, ptr, size, t, b)
    ensures var r := Relinked(base, free, ptr, size, t, b); Linked(base, Insert(free, t, b), r.0, r.1)
  {
    var r := Relinked(base, free, ptr, size, t, b);
    forall j | 0 <= j <= |Insert(free, t, b)| ensures LinkOk(base, Insert(free, t, b), r.0, r.1, j) {
      FreeLinkAt(base, free, ptr, size, t, b, j);
    }
  }

  lemma FreeLinkAt(base: int, free: seq<Blk>, ptr: map<int, int>, size: map<int, int>, t: nat, b: Blk, j: nat)
    requires Freeable(base, free, ptr, size, t, b) && j <= |Insert(free, t, b)|
    ensures var r := Relinked(base, free, ptr, size, t, b); LinkOk(base, Insert(free, t, b), r.0, r.1, j)
  {
    hide Relinked, Insert, Linked, Spaced;
    var r, f := Relinked(base, free, ptr, size, t, b), Insert(free, t, b);
    var lo, hi := Lo(free, t, b), Hi(free, t, b);
    RelinkedAt(base, free, ptr, size, t, b);
    InsertNode(base, free, t, b, j);
    InsertNode(base, free, t, b, Succ(f, j));
    LinkAt(base, free, ptr, size, t);
    if j < t && j <= lo {
      LinkAt(base, free, ptr, size, j);
      NodesAscend(base, free, j, t);
      BeforeBlock(base, free, t, b);
    } else if j > lo + 1 {
      LinkAt(base, free, ptr, size, j - lo - 1 + hi);
      NodesAscend(base, free, t, j - lo - 1 + hi);
      AfterBlock(base, free, t, b, j - lo - 1 + hi);
    }
  }

  lemma LinkAt(base: int, free: seq<Blk>, ptr: map<int, int>, size: map<int, int>, k: nat)
    requires Linked(base, free, ptr, size) && k <= |free|
    ensures LinkOk(base, free, ptr, size, k)
  {}

  lemma BeforeBlock(base: int, free: seq<Blk>, t: nat, b: Blk)
    requires FitsAt(free, t, b) && base < b.addr && Spaced(base, free)
    ensures Node(base, free, t) < b.addr
  {}

  lemma AfterBlock(base: int, free: seq<Blk>, t: nat, b: Blk, i: nat)
    requires FitsAt(free, t, b) && b.size >= 1 && t < i <= |free|
    ensures b.addr < Node(base, free, i)
  {}

  /** The nodes of the list after an insertion. */
  lemma InsertNode(base: int, free: seq<Blk>, k: nat, b: Blk, j: nat)
    requires k <= |free| && j <= |Insert(free, k, b)|
    ensures var lo, hi, r := Lo(free, k, b), Hi(free, k, b), Insert(free, k, b);
            && |r| == lo + 1 + |free| - hi
            && Node(base, r, j) == (if j <= lo then Node(base, free, j)
                                    else if j == lo + 1 then Grown(free, k, b).addr
                                      else Node(base, free, j - lo - 1 + hi))
            && NodeSize(r, j) == (if j <= lo then NodeSize(free, j) else if j == lo + 1 then Grown(free, k, b).size
                                  else NodeSize(free, j - lo - 1 + hi))
  {
    if j > 0 { InsertAt(free, k, b, j - 1); }
  }

  // ----- malloc: the pointer updates -----

  /** Unlinking an exact fit, or shrinking a larger block and giving its tail a header. */
  lemma TakeLinks(base: int, free: seq<Blk>, ptr: map<int, int>, size: map<int, int>, k: nat, n: int)
    requires Linked(base, free, ptr, size) && Spaced(base, free) && k < |free| && 1 <= n <= free[k].size
    ensures var prev, p := Node(base, free, k), Node(base, free, k + 1);
            p in ptr && p in size
    ensures var prev, p := Node(base, free, k), Node(base, free, k + 1);
            if free[k].size == n then Linked(base, Take(free, k, n), ptr[prev := ptr[p]], size)
            else Linked(base, Take(free, k, n), ptr, size[p := size[p] - n][p + size[p] - n := n])
  {
    var prev, p, r := Node(base, free, k), Node(base, free, k + 1), Take(free, k, n);
    LinkAt(base, free, ptr, size, k + 1);
    var ptr', size' := if free[k].size == n then ptr[prev := ptr[p]] else ptr,
                       if free[k].size == n then size else size[p := size[p] - n][p + size[p] - n := n];
    forall j | 0 <= j <= |r| ensures LinkOk(base, r, ptr', size', j) {
      TakeLinkAt(base, free, ptr, size, k, n, j);
    }
  }

  lemma TakeLinkAt(base: int, free: seq<Blk>, ptr: map<int, int>, size: map<int, int>, k: nat, n: int, j: nat)
    requires Linked(base, free, ptr, size) && Spaced(base, free) && k < |free| && 1 <= n <= free[k].size
    requires j <= |Take(free, k, n)|
    ensures var p := Node(base, free, k + 1); p in ptr && p in size
    ensures var prev, p := Node(base, free, k), Node(base, free, k + 1);
            if free[k].size == n then LinkOk(base, Take(free, k, n), ptr[prev := ptr[p]], size, j)
            else LinkOk(base, Take(free, k, n), ptr, size[p := size[p] - n][p + size[p] - n := n], j)
  {
    hide Linked, Spaced;
    LinkAt(base, free, ptr, size, k + 1);
    LinkAt(base, free, ptr, size, k);
    if free[k].size == n {
      var i := if j <= k then j else j + 1;
      LinkAt(base, free, ptr, size, i);
      if j < k { NodesAscend(base, free, j, k); } else if j > k { NodesAscend(base, free, k, i); }
    } else {
      LinkAt(base, free, ptr, size, j);
      if j < k + 1 { NodesAscend(base, free, j, k + 1); } else if j > k + 1 { NodesAscend(base, free, k + 1, j); }
    }
  }

  // ----- live blocks and the units obtained from the system -----

  /** Live blocks lie above base with their size in their header, clear of each other and of every
      free block. */
  ghost predicate LiveOk(base: int, free: seq<Blk>, live: map<int, int>, size: map<int, int>)
  {
    && (forall a | a in live :: base < a && live[a] >= 1 && a in size && size[a] == live[a])
    && (forall a, i | a in live && 0 <= i < |free| :: Clear(free[i], Blk(a, live[a])))
    && (forall a, c | a in live && c in live && a != c :: Clear(Blk(a, live[a]), Blk(c, live[c])))
  }

  ghost function LiveUnits(live: map<int, int>): (r: set<int>)
    ensures forall a | a in live :: BlkUnits(Blk(a, live[a])) <= r
  {
    set a, x | a in live.Keys && x in BlkUnits(Blk(a, live[a])) :: x
  }

  lemma LiveUnitsAdd(live: map<int, int>, a: int, n: int)
    requires a !in live
    ensures LiveUnits(live[a := n]) == LiveUnits(live) + BlkUnits(Blk(a, n))
  {
    hide BlkUnits;
    var l := live[a := n];
    forall x | x in LiveUnits(live) + BlkUnits(Blk(a, n)) ensures x in LiveUnits(l) {
      if x in LiveUnits(live) {
        var c :| c in live && x in BlkUnits(Blk(c, live[c]));
        assert c in l && x in BlkUnits(Blk(c, l[c]));
      } else {
        assert a in l && x in BlkUnits(Blk(a, l[a]));
      }
    }
  }

  lemma LiveUnitsDrop(live: map<int, int>, a: int)
    requires a in live
    ensures LiveUnits(live) == LiveUnits(live - {a}) + BlkUnits(Blk(a, live[a]))
  {
    var l := live - {a};
    LiveUnitsAdd(l, a, live[a]);
    assert l[a := live[a]] == live;
  }

  /** Returning a live block leaves every other live block alone. */
  lemma LiveAfterFree(base: int, free: seq<Blk>, live: map<int, int>, size: map<int, int>, size': map<int, int>,
                      k: nat, a: int)
    requires Spaced(base, free) && LiveOk(base, free, live, size) && a in live && FitsAt(free, k, Blk(a, live[a]))
    requires forall c | c in live && c != a :: c in size' && size'[c] == size[c]
    ensures LiveOk(base, Insert(free, k, Blk(a, live[a])), live - {a}, size')
  {
    var b, l := Blk(a, live[a]), live - {a};
    var r := Insert(free, k, b);
    forall c, i | c in l && 0 <= i < |r| ensures Clear(r[i], Blk(c, l[c])) {
      InsertAt(free, k, b, i);
      assert Clear(b, Blk(c, live[c]));
      if i == Lo(free, k, b) {
        if JoinsLeft(free, k, b) { assert Clear(free[k - 1], Blk(c, live[c])); }
        if JoinsRight(free, k, b) { assert Clear(free[k], Blk(c, live[c])); }
      }
    }
  }

  lemma LiveAfterTake(base: int, free: seq<Blk>, live: map<int, int>, size: map<int, int>, size': map<int, int>,
                      k: nat, n: int)
    requires Spaced(base, free) && LiveOk(base, free, live, size) && k < |free| && 1 <= n <= free[k].size
    requires forall c | c in live :: c in size' && size'[c] == size[c]
    requires var b := Carved(free, k, n); b.addr in size' && size'[b.addr] == n
    ensures Carved(free, k, n).addr !in live
    ensures LiveOk(base, Take(free, k, n), live[Carved(free, k, n).addr := n], size')
  {
    var b, r := Carved(free, k, n), Take(free, k, n);
    var l := live[b.addr := n];
    forall c | c in live ensures Clear(b, Blk(c, live[c])) && c != b.addr {
      assert Clear(free[k], Blk(c, live[c]));
    }
    TakeSpaced(base, free, k, n);
    forall c, i | c in l && 0 <= i < |r| ensures Clear(r[i], Blk(c, l[c])) {
      if c != b.addr {
        var m := if free[k].size == n && i >= k then i + 1 else i;
        assert Clear(free[m], Blk(c, live[c]));
      }
    }
  }

  const MIN_CORE := 4096
  const UNIT := 8            // sizeof(Header)

  /** The units of nbytes bytes and a header. */
  function UnitsFor(nbytes: nat): (n: int)
    ensures n >= 1 && nbytes <= UNIT * (n - 1) < nbytes + UNIT
  {
    (nbytes + UNIT - 1) / UNIT + 1
  }

  ghost predicate HasBlock(free: seq<Blk>, nunits: int)
  {
    exists i :: 0 <= i < |free| && free[i].size >= nunits
  }

  class Allocator {
    const base: int                 // the address of the static header `base`
    var ptr: map<int, int>          // s.ptr of the header at each address
    var size: map<int, int>         // s.size
    var freep: int
    ghost var free: seq<Blk>
    ghost var live: map<int, int>   // blocks handed out: header address to size
    ghost var arena: set<int>       // every unit ever obtained from sbrk

    ghost predicate Valid()
      reads this
    {
      && base > NULL && Spaced(base, free) && LiveOk(base, free, live, size)
      && arena == Units(free) + LiveUnits(live)
      && (if freep == NULL then free == [] && live == map[]
          else Linked(base, free, ptr, size) && OnList(freep))
    }

    ghost predicate OnList(p: int)
      reads this
    {
      exists k :: 0 <= k <= |free| && Node(base, free, k) == p
    }

    constructor (base: int)
      requires base > NULL
      ensures Valid() && this.base == base && live == map[] && arena == {} && freep == NULL
    {
      this.base := base;
      ptr, size, freep := map[], map[], NULL;
      free, live, arena := [], map[], {};
    }

    /** free()'s search: the header after which block b belongs. */
    method FindPlace(b: int) returns (p: int, ghost t: nat)
      requires Valid() && freep != NULL && b in live
      ensures t <= |free| && p == Node(base, free, t) && FitsAt(free, t, Blk(b, live[b]))
    {
      hide LiveOk, Spaced, Linked, FitsAt, Units, LiveUnits, BlkUnits;
      ghost var x := Blk(b, live[b]);
      LiveFacts(base, free, live, size, b);
      t := Position(base, free, x);
      p := freep;
      ghost var k: nat :| k <= |free| && Node(base, free, k) == p;
      LinkAt(base, free, ptr, size, k);
      while !(b > p && b < ptr[p])
        invariant k <= |free| && p == Node(base, free, k) && LinkOk(base, free, ptr, size, k)
        decreases if k <= t then t - k else t + |free| + 1 - k
      {
        if k == t { PlaceStops(base, free, t, x, p, ptr[p]); }
        if p >= ptr[p] && (b > p || b < ptr[p]) {
          PlaceFound(base, free, t, x, k);
          return;
        }
        p := ptr[p];
        k := Succ(free, k);
        LinkAt(base, free, ptr, size, k);
      }
      PlaceFound(base, free, t, x, k);
    }

    /** free: the block goes back to its place in the list, joined to the neighbours it touches. */
    method Free(ap: int)
      requires Valid() && ap - 1 in live
      modifies this
      ensures Valid() && freep != NULL
      ensures live == old(live) - {ap - 1} && arena == old(arena)
      ensures Units(free) == old(Units(free)) + BlkUnits(Blk(ap - 1, old(live)[ap - 1]))
    {
      hide LiveOk, Spaced, Linked, FitsAt, Units, LiveUnits, BlkUnits, Relinked;
      var bp := ap - 1;
      ghost var b := Blk(bp, live[bp]);
      LiveFacts(base, free, live, size, bp);
      var p; ghost var t;
      p, t := FindPlace(bp);
      Join(p, bp, t, b);
      freep := p;
      FreeDone(base, free, live, old(ptr), old(size), t, b);
      InsertNode(base, free, t, b, t);
      NodeAbove(base, free, t);
      free := Insert(free, t, b);
      live := live - {bp};
      assert Node(base, free, t) == p;
    }

    /** free()'s two coalescing tests. */
    method Join(p: int, bp: int, ghost t: nat, ghost b: Blk)
      requires Freeable(base, free, ptr, size, t, b) && bp == b.addr && p == Node(base, free, t)
      modifies this`ptr, this`size
      ensures (ptr, size) == Relinked(base, free, old(ptr), old(size), t, b)
    {
      LinkAt(base, free, ptr, size, t);
      LinkAt(base, free, ptr, size, Succ(free, t));
      hide Linked, Spaced, FitsAt;
      var next := ptr[p];
      if bp + size[bp] == next {
        size := size[bp := size[bp] + size[next]];
        ptr := ptr[bp := ptr[next]];
      } else {
        ptr := ptr[bp := next];
      }
      if p + size[p] == bp {
        size := size[p := size[p] + size[bp]];
        ptr := ptr[p := ptr[bp]];
      } else {
        ptr := ptr[p := bp];
      }
    }

    /** malloc()'s search: once around the list from freep for a block that is large enough. */
    method Search(nunits: int) returns (found: bool, prev: int, p: int, ghost k: nat)
      requires Valid() && freep != NULL && nunits >= 1
      ensures found ==>
                k < |free| && prev == Node(base, free, k) && p == Node(base, free, k + 1) && free[k].size >= nunits
      ensures !found ==> forall i | 0 <= i < |free| :: free[i].size < nunits
    {
      hide LiveOk, Spaced, Linked, Units, LiveUnits, BlkUnits;
      ghost var j: nat :| j <= |free| && Node(base, free, j) == freep;
      LinkAt(base, free, ptr, size, j);
      prev := freep;
      p := ptr[prev];
      ghost var c := 1;
      k := j;
      LinkAt(base, free, ptr, size, Succ(free, j));
      while true
        invariant 1 <= c <= |free| + 1 && k <= |free| && Round(free, j, c - 1) == k
                  && Round(free, j, c) == Succ(free, k)
        invariant prev == Node(base, free, k) && p == Node(base, free, Succ(free, k))
        invariant LinkOk(base, free, ptr, size, Succ(free, k))
        invariant forall m | 1 <= m < c :: NodeSize(free, Round(free, j, m)) < nunits
        decreases |free| + 1 - c
      {
        if size[p] >= nunits {
          found := true;
          return;
        }
        if p == freep {
          SameNode(base, free, Succ(free, k), j);
          forall i | 0 <= i < |free| ensures free[i].size < nunits { AllSeen(free, j, c, i + 1); }
          found := false;
          return;
        }
        prev := p;
        p := ptr[p];
        k := Succ(free, k);
        c := c + 1;
        LinkAt(base, free, ptr, size, Succ(free, k));
      }
      found := false;
    }

    /** morecore: at least nu units, never fewer than 4096, from sbrk; the region goes on the list
        through free(). `grow` is where sbrk would put it, above everything obtained so far, or -1. */
    method Morecore(nu: int, grow: int) returns (ok: bool)
      requires Valid() && freep != NULL && nu >= 1
      requires grow == -1 || (base < grow && forall x | x in arena :: x < grow)
      modifies this
      ensures Valid() && freep != NULL && live == old(live) && (ok <==> grow != -1)
      ensures !ok ==> arena == old(arena) && free == old(free)
      ensures ok ==> exists i :: 0 <= i < |free| && free[i].size >= nu
      ensures ok ==> arena == old(arena) + BlkUnits(Blk(grow, if nu < MIN_CORE then MIN_CORE else nu))
    {
      hide LiveOk, Spaced, Linked, Units, LiveUnits, BlkUnits;
      if grow == -1 {
        return false;
      }
      var n := if nu < MIN_CORE then MIN_CORE else nu;
      ghost var b := Blk(grow, n);
      NewCore(base, free, live, ptr, size, arena, b);
      size := size[grow := n];
      live := live[grow := n];
      arena := arena + BlkUnits(b);
      Free(grow + 1);
      assert live == old(live);
      Covered(base, free, b);
      return true;
    }

    /** malloc in units: false when sbrk refuses; otherwise a block that was free, or new, and that
        overlaps no live block. */
    method MallocUnits(nunits: int, grow: int) returns (r: int)
      requires Valid() && nunits >= 1
      requires grow == -1 || (base < grow && forall x | x in arena :: x < grow)
      modifies this
      ensures Valid() && freep != NULL
      ensures r == NULL <==> grow == -1 && !HasBlock(old(free), nunits)
      ensures r == NULL ==> live == old(live) && free == old(free) && arena == old(arena)
      ensures r != NULL ==> r - 1 !in old(live) && live == old(live)[r - 1 := nunits]
      ensures r != NULL ==> arena == if HasBlock(old(free), nunits) then old(arena)
                else old(arena) + BlkUnits(Blk(grow, if nunits < MIN_CORE then MIN_CORE else nunits))
    {
      hide LiveOk, Spaced, Linked, Units, LiveUnits, BlkUnits;
      if freep == NULL {
        InitList();
      }
      var found, prev, p; ghost var k;
      found, prev, p, k := Search(nunits);
      if !found {
        var ok := Morecore(nunits, grow);
        if !ok {
          return NULL;
        }
        found, prev, p, k := Search(nunits);
      }
      r := Carve(prev, p, nunits, k);
    }

    /** The first call of malloc: base is the whole list. */
    method InitList()
      requires Valid() && freep == NULL
      modifies this`ptr, this`size, this`freep
      ensures Valid() && freep != NULL
    {
      ptr := ptr[base := base];
      size := size[base := 0];
      freep := base;
      assert LinkOk(base, free, ptr, size, 0);
      assert Node(base, free, 0) == freep;
    }

    /** Hand out the block found: all of it, or its tail. */
    method Carve(prev: int, p: int, nunits: int, ghost k: nat) returns (r: int)
      requires Valid() && freep != NULL && nunits >= 1
      requires k < |free| && prev == Node(base, free, k) && p == Node(base, free, k + 1) && free[k].size >= nunits
      modifies this
      ensures Valid() && freep != NULL && r != NULL && arena == old(arena)
      ensures r - 1 !in old(live) && live == old(live)[r - 1 := nunits]
    {
      hide LiveOk, Spaced, Linked, Units, LiveUnits, BlkUnits;
      TakeDone(base, free, live, ptr, size, k, nunits);
      LinkAt(base, free, ptr, size, k + 1);
      NodeAbove(base, free, k);
      NodeAbove(base, free, k + 1);
      var q := p;
      if size[p] == nunits {
        ptr := ptr[prev := ptr[p]];
      } else {
        size := size[p := size[p] - nunits];
        q := p + size[p];
        size := size[q := nunits];
      }
      freep := prev;
      r := q + 1;
      live := live[q := nunits];
      free := Take(free, k, nunits);
      assert Node(base, free, k) == prev;
    }

    /** malloc: nbytes rounded up to whole units plus one for the header. */
    method Malloc(nbytes: nat, grow: int) returns (r: int)
      requires Valid()
      requires grow == -1 || (base < grow && forall x | x in arena :: x < grow)
      modifies this
      ensures Valid()
      ensures r == NULL <==> grow == -1 && !HasBlock(old(free), UnitsFor(nbytes))
      ensures r == NULL ==> live == old(live) && free == old(free) && arena == old(arena)
      ensures r != NULL ==> r - 1 !in old(live) && (live - {r - 1}) == old(live) && r - 1 in live
      ensures r != NULL ==> nbytes <= UNIT * (live[r - 1] - 1) < nbytes + UNIT
    {
      hide LiveOk, Spaced, Linked, Units, LiveUnits, BlkUnits;
      r := MallocUnits(UnitsFor(nbytes), grow);
    }
  }

  /** What Carve's bookkeeping amounts to. */
  lemma TakeDone(base: int, free: seq<Blk>, live: map<int, int>, ptr: map<int, int>, size: map<int, int>, k: nat,
                 n: int)
    requires Linked(base, free, ptr, size) && Spaced(base, free) && LiveOk(base, free, live, size)
    requires k < |free| && 1 <= n <= free[k].size
    ensures var prev, p, f, q := Node(base, free, k), Node(base, free, k + 1), Take(free, k, n), Carved(free, k,
        n).addr;
            && p in ptr && p in size && size[p] == free[k].size && q == p + size[p] - n && q > base
            && Spaced(base, f) && q !in live
            && Units(f) + LiveUnits(live[q := n]) == Units(free) + LiveUnits(live)
            && (if free[k].size == n
                then && Linked(base, f, ptr[prev := ptr[p]], size)
                     && LiveOk(base, f, live[q := n], size)
                else && Linked(base, f, ptr, size[p := size[p] - n][q := n])
                     && LiveOk(base, f, live[q := n], size[p := size[p] - n][q := n]))
  {
    hide Units, LiveUnits, BlkUnits, Linked;
    var p, b := Node(base, free, k + 1), Carved(free, k, n);
    LinkAt(base, free, ptr, size, k + 1);
    TakeLinks(base, free, ptr, size, k, n);
    TakeSpaced(base, free, k, n);
    TakeUnits(base, free, k, n);
    var size' := if free[k].size == n then size else size[p := size[p] - n][b.addr := n];
    forall c | c in live ensures c in size' && size'[c] == size[c] {
      LiveNotNode(base, free, live, size, c, k + 1);
      assert Clear(free[k], Blk(c, live[c]));
    }
    LiveAfterTake(base, free, live, size, size', k, n);
    LiveUnitsAdd(live, b.addr, n);
    assert Units(Take(free, k, n)) + (LiveUnits(live) + BlkUnits(b)) == Units(free) + LiveUnits(live);
  }

  /** A region above everything obtained so far can be registered like a live block. */
  lemma NewCore(base: int, free: seq<Blk>, live: map<int, int>, ptr: map<int, int>, size: map<int, int>,
                arena: set<int>, b: Blk)
    requires Spaced(base, free) && Linked(base, free, ptr, size) && LiveOk(base, free, live, size)
    requires arena == Units(free) + LiveUnits(live)
    requires b.size >= 1 && base < b.addr && forall x | x in arena :: x < b.addr
    ensures b.addr !in live && LiveOk(base, free, live[b.addr := b.size], size[b.addr := b.size])
    ensures Linked(base, free, ptr, size[b.addr := b.size])
    ensures arena + BlkUnits(b) == Units(free) + LiveUnits(live[b.addr := b.size])
  {
    hide Units, LiveUnits, BlkUnits, Spaced, Linked, LiveOk;
    Beyond(base, free, live, size, b.addr);
    NewLive(base, free, live, size, b);
    LiveUnitsAdd(live, b.addr, b.size);
    NewHeader(base, free, ptr, size, b.addr, b.size);
    assert Units(free) + LiveUnits(live) + BlkUnits(b) == Units(free) + (LiveUnits(live) + BlkUnits(b));
  }

  ghost predicate Below(free: seq<Blk>, live: map<int, int>, top: int)
  {
    && (forall i | 0 <= i < |free| :: End(free[i]) <= top)
    && (forall a | a in live :: a + live[a] <= top)
  }

  lemma Beyond(base: int, free: seq<Blk>, live: map<int, int>, size: map<int, int>, top: int)
    requires Spaced(base, free) && LiveOk(base, free, live, size)
    requires forall x | x in Units(free) + LiveUnits(live) :: x < top
    ensures Below(free, live, top)
  {
    hide Units, LiveUnits;
    forall i | 0 <= i < |free| ensures End(free[i]) <= top {
      UnitsAt(free, i);
      assert End(free[i]) - 1 in BlkUnits(free[i]);
      assert End(free[i]) - 1 in Units(free) + LiveUnits(live);
    }
    forall a | a in live ensures a + live[a] <= top {
      assert End(Blk(a, live[a])) - 1 in BlkUnits(Blk(a, live[a]));
      assert a + live[a] - 1 in Units(free) + LiveUnits(live);
    }
  }

  lemma NewLive(base: int, free: seq<Blk>, live: map<int, int>, size: map<int, int>, b: Blk)
    requires LiveOk(base, free, live, size) && Below(free, live, b.addr) && b.size >= 1 && base < b.addr
    ensures b.addr !in live && LiveOk(base, free, live[b.addr := b.size], size[b.addr := b.size])
  {}

  lemma NewHeader(base: int, free: seq<Blk>, ptr: map<int, int>, size: map<int, int>, a: int, n: int)
    requires Linked(base, free, ptr, size) && Spaced(base, free) && base < a
             && forall i | 0 <= i < |free| :: End(free[i]) <= a
    ensures Linked(base, free, ptr, size[a := n])
  {
    var size' := size[a := n];
    forall k | 0 <= k <= |free| ensures LinkOk(base, free, ptr, size', k) {
      assert LinkOk(base, free, ptr, size, k);
    }
  }

  /** A block whose units are all free lies inside one free block. */
  lemma {:induction false} Covered(base: int, free: seq<Blk>, b: Blk)
    requires Spaced(base, free) && b.size >= 1 && BlkUnits(b) <= Units(free)
    ensures exists i :: 0 <= i < |free| && free[i].size >= b.size
  {
    var i := Holder(free, b.addr);
    CoveredUpTo(base, free, b, i, b.size);
  }

  lemma {:induction false} Holder(free: seq<Blk>, x: int) returns (i: nat)
    requires x in Units(free)
    ensures i < |free| && free[i].addr <= x < End(free[i])
  {
    if x in BlkUnits(free[|free| - 1]) { i := |free| - 1; } else { i := Holder(free[..|free| - 1], x); }
  }

  /** Gaps between free blocks keep consecutive free units in one block. */
  lemma {:induction false} CoveredUpTo(base: int, free: seq<Blk>, b: Blk, i: nat, n: nat)
    requires Spaced(base, free) && i < |free| && free[i].addr <= b.addr < End(free[i])
    requires 1 <= n <= b.size && BlkUnits(b) <= Units(free)
    ensures b.addr + n <= End(free[i])
  {
    if n > 1 {
      CoveredUpTo(base, free, b, i, n - 1);
      var x := b.addr + n - 1;
      assert x in BlkUnits(b);
      var _ := Holder(free, x);
    }
  }

  /** Position m steps after j on the circular list. */
  ghost function Round(free: seq<Blk>, j: nat, m: nat): (r: nat)
    requires j <= |free| && m <= |free| + 1
    ensures r <= |free|
  {
    if j + m <= |free| then j + m else j + m - |free| - 1
  }

  lemma SameNode(base: int, free: seq<Blk>, i: nat, j: nat)
    requires Spaced(base, free) && i <= |free| && j <= |free| && Node(base, free, i) == Node(base, free, j)
    ensures i == j
  {
    if i < j { NodesAscend(base, free, i, j); } else if j < i { NodesAscend(base, free, j, i); }
  }

  /** Once around, every position has been seen. */
  lemma AllSeen(free: seq<Blk>, j: nat, c: nat, k: nat)
    requires j <= |free| && 1 <= c <= |free| + 1 && Round(free, j, c) == j && k <= |free|
    ensures exists m :: 1 <= m <= c && Round(free, j, m) == k
  {
    var m := if k > j then k - j else k + |free| + 1 - j;
    assert Round(free, j, m) == k;
  }

  /** What Free's bookkeeping amounts to. */
  lemma FreeDone(base: int, free: seq<Blk>, live: map<int, int>, ptr: map<int, int>, size: map<int, int>, t: nat,
                 b: Blk)
    requires Freeable(base, free, ptr, size, t, b) && LiveOk(base, free, live, size)
    requires b.addr in live && live[b.addr] == b.size
    ensures var f, r, l := Insert(free, t, b), Relinked(base, free, ptr, size, t, b), live - {b.addr};
            && Spaced(base, f) && Linked(base, f, r.0, r.1) && LiveOk(base, f, l, r.1)
            && Units(f) == Units(free) + BlkUnits(b)
            && Units(f) + LiveUnits(l) == Units(free) + LiveUnits(live)
  {
    hide Units, LiveUnits, BlkUnits, Linked;
    FreeLinks(base, free, ptr, size, t, b);
    RelinkedAt(base, free, ptr, size, t, b);
    InsertSpaced(base, free, t, b);
    InsertUnits(base, free, t, b);
    LiveUnitsDrop(live, b.addr);
    var r := Relinked(base, free, ptr, size, t, b);
    forall c | c in live && c != b.addr ensures c in r.1 && r.1[c] == size[c] {
      LiveNotNode(base, free, live, size, c, t);
    }
    LiveAfterFree(base, free, live, size, r.1, t, b.addr);
    assert Units(free) + BlkUnits(b) + LiveUnits(live - {b.addr}) == Units(free) + LiveUnits(live);
  }

  lemma NodeAbove(base: int, free: seq<Blk>, k: nat)
    requires Spaced(base, free) && k <= |free|
    ensures base <= Node(base, free, k)
  {}

  lemma LiveNotNode(base: int, free: seq<Blk>, live: map<int, int>, size: map<int, int>, c: int, k: nat)
    requires LiveOk(base, free, live, size) && Spaced(base, free) && c in live && k <= |free|
    ensures c != Node(base, free, k)
  {
    if k > 0 { assert Clear(free[k - 1], Blk(c, live[c])); }
  }

  lemma LiveFacts(base: int, free: seq<Blk>, live: map<int, int>, size: map<int, int>, b: int)
    requires LiveOk(base, free, live, size) && b in live
    ensures base < b && live[b] >= 1 && b in size && size[b] == live[b]
    ensures forall i | 0 <= i < |free| :: Clear(free[i], Blk(b, live[b]))
  {}

  /** At the block's place one of the two loop exits is taken. */
  lemma PlaceStops(base: int, free: seq<Blk>, t: nat, b: Blk, p: int, next: int)
    requires Spaced(base, free) && FitsAt(free, t, b) && b.size >= 1 && base < b.addr
    requires p == Node(base, free, t) && next == Node(base, free, Succ(free, t))
    ensures (b.addr > p && b.addr < next) || (p >= next && (b.addr > p || b.addr < next))
  {}

  /** An exit is taken nowhere else. */
  lemma PlaceFound(base: int, free: seq<Blk>, t: nat, b: Blk, k: nat)
    requires Spaced(base, free) && FitsAt(free, t, b) && b.size >= 1 && base < b.addr && k <= |free|
    requires var p, next := Node(base, free, k), Node(base, free, Succ(free, k));
             (b.addr > p && b.addr < next) || (p >= next && (b.addr > p || b.addr < next))
    ensures k == t
  {
    if t < k { AfterBlock(base, free, t, b, k); }
  }

  // ----- conservation -----

  ghost function FreeTotal(free: seq<Blk>): int
  {
    if |free| == 0 then 0 else FreeTotal(free[..|free| - 1]) + free[|free| - 1].size
  }

  /** ks lists the live blocks, each once. */
  ghost predicate Lists(ks: seq<int>, live: map<int, int>)
  {
    && (forall i | 0 <= i < |ks| :: ks[i] in live)
    && (forall i, j | 0 <= i < j < |ks| :: ks[i] != ks[j])
    && (forall a | a in live :: a in ks)
  }

  /** The sizes of the listed live blocks, added up. */
  ghost function LiveTotal(live: map<int, int>, ks: seq<int>): int
    requires forall i | 0 <= i < |ks| :: ks[i] in live
  {
    if |ks| == 0 then 0 else LiveTotal(live, ks[..|ks| - 1]) + live[ks[|ks| - 1]]
  }

  lemma {:induction false} SpanSize(lo: int, hi: int)
    requires lo <= hi
    ensures |Span(lo, hi)| == hi - lo
    decreases hi - lo
  {
    if lo < hi { SpanSize(lo, hi - 1); }
  }

  lemma {:induction false} FreeCount(base: int, free: seq<Blk>)
    requires Spaced(base, free)
    ensures |Units(free)| == FreeTotal(free)
  {
    if |free| > 0 {
      var n := |free| - 1;
      FreeCount(base, free[..n]);
      ClearUnits(free[..n], free[n]);
      SpanSize(free[n].addr, End(free[n]));
    }
  }

  ghost function Listed(live: map<int, int>, ks: seq<int>): seq<Blk>
    requires forall i | 0 <= i < |ks| :: ks[i] in live
  {
    seq(|ks|, i requires 0 <= i < |ks| => Blk(ks[i], live[ks[i]]))
  }

  lemma CountMore(bs: seq<Blk>)
    requires |bs| > 0 && bs[|bs| - 1].size >= 1 && forall i | 0 <= i < |bs| - 1 :: Clear(bs[i], bs[|bs| - 1])
    ensures |Units(bs)| == |Units(bs[..|bs| - 1])| + bs[|bs| - 1].size
  {
    hide Clear;
    var n := |bs| - 1;
    ClearUnits(bs[..n], bs[n]);
    SpanSize(bs[n].addr, End(bs[n]));
    hide BlkUnits;
    assert Units(bs) == Units(bs[..n]) + BlkUnits(bs[n]);
  }

  lemma {:induction false} LiveCount(live: map<int, int>, ks: seq<int>)
    requires forall i | 0 <= i < |ks| :: ks[i] in live && live[ks[i]] >= 1
    requires forall i, j | 0 <= i < j < |ks| :: Clear(Blk(ks[i], live[ks[i]]), Blk(ks[j], live[ks[j]]))
    ensures |Units(Listed(live, ks))| == LiveTotal(live, ks)
  {
    if |ks| > 0 {
      hide Units, Clear;
      var n, bs := |ks| - 1, Listed(live, ks);
      LiveCount(live, ks[..n]);
      assert bs[..n] == Listed(live, ks[..n]);
      CountMore(bs);
    }
  }

  lemma ListedUnits(live: map<int, int>, ks: seq<int>)
    requires Lists(ks, live)
    ensures Units(Listed(live, ks)) == LiveUnits(live)
  {
    var bs := Listed(live, ks);
    forall x | x in Units(bs) ensures x in LiveUnits(live) {
      var i := Holder(bs, x);
      assert x in BlkUnits(Blk(ks[i], live[ks[i]]));
    }
    forall x | x in LiveUnits(live) ensures x in Units(bs) {
      var a :| a in live && x in BlkUnits(Blk(a, live[a]));
      var i :| 0 <= i < |ks| && ks[i] == a;
      UnitsAt(bs, i);
    }
  }

  lemma {:induction false} FreeLiveApart(free: seq<Blk>, live: map<int, int>)
    requires forall a, i | a in live && 0 <= i < |free| :: Clear(free[i], Blk(a, live[a]))
    ensures Units(free) !! LiveUnits(live)
  {
    if |free| > 0 { FreeLiveApart(free[..|free| - 1], live); }
  }

  /** Conservation: free units and live units are disjoint and together are exactly the units
      obtained from sbrk. */
  lemma Conservation(base: int, free: seq<Blk>, live: map<int, int>, size: map<int, int>, arena: set<int>, ks: seq<int>)
    requires Spaced(base, free) && LiveOk(base, free, live, size) && arena == Units(free) + LiveUnits(live)
    requires Lists(ks, live)
    ensures Units(free) !! LiveUnits(live) && FreeTotal(free) + LiveTotal(live, ks) == |arena|
  {
    FreeLiveApart(free, live);
    FreeCount(base, free);
    LiveCount(live, ks);
    ListedUnits(live, ks);
  }
}
