/** random_at_most (rand.c) and the lottery in scheduler() (proc.c): exactly how many generator
    values give each result, and so each process. */
module Lottery {
  import opened Rand

  const NUM_RAND: int := 0x8000_0000      // RAND_MAX + 1

  // ----- rejection sampling -----

  function BinSize(max: int): int
    requires max >= 0
  {
    NUM_RAND / (max + 1)
  }

  function Defect(max: int): int
    requires max >= 0
  {
    NUM_RAND % (max + 1)
  }

  /** The draw is not in the incomplete last bin. */
  predicate Accepted(max: int, x: int)
    requires max >= 0
  {
    x < NUM_RAND - Defect(max)
  }

  /** The draw after `calls` earlier ones, as the C `long` genrand returns. */
  function Draw(seed: bv32, calls: nat): (x: int)
    ensures 0 <= x < NUM_RAND
  {
    Output(seed, calls) as int
  }

  /** random_at_most over the next `fuel` draws of the generator: None if every one is rejected. */
  method RandomAtMost(g: Generator, max: int, fuel: nat) returns (ok: bool, r: int)
    requires 0 <= max < NUM_RAND && g.mt.Length == N && g.Seeded()
    modifies g, g.mt
    ensures g.Seeded() && g.seed == old(g.seed) && g.calls >= old(g.calls)
    ensures ok ==> g.calls > old(g.calls)
    ensures forall k | old(g.calls) <= k < (if ok then g.calls - 1 else g.calls) :: !Accepted(max, Draw(g.seed, k))
    ensures ok ==> Accepted(max, Draw(g.seed, g.calls - 1)) && r == Draw(g.seed, g.calls - 1) / BinSize(max)
    ensures ok ==> 0 <= r <= max && BinSize(max) >= 1
    ensures !ok ==> g.calls == old(g.calls) + fuel
  {
    BinFacts(max);
    var numBins := max + 1;
    var binSize := NUM_RAND / numBins;
    var defect := NUM_RAND % numBins;
    var left := fuel;
    while left > 0
      invariant 0 <= left <= fuel && g.Seeded() && g.seed == old(g.seed) && g.calls == old(g.calls) + fuel - left
      invariant forall k | old(g.calls) <= k < g.calls :: !Accepted(max, Draw(g.seed, k))
    {
      var y := g.Genrand();
      var x := y as int;
      left := left - 1;
      if !(NUM_RAND - defect <= x) {
        InBin(max, x);
        return true, x / binSize;
      }
    }
    return false, 0;
  }

  lemma BinFacts(max: int)
    requires 0 <= max < NUM_RAND
    ensures BinSize(max) >= 1 && NUM_RAND - Defect(max) == BinSize(max) * (max + 1) && 0 <= Defect(max) <= max
  {
    var n := max + 1;
    assert NUM_RAND == (NUM_RAND / n) * n + NUM_RAND % n;
    assert (NUM_RAND / n) * n > 0;
  }

  lemma InBin(max: int, x: int)
    requires 0 <= max < NUM_RAND && 0 <= x && Accepted(max, x)
    ensures BinSize(max) >= 1 && 0 <= x / BinSize(max) <= max
  {
    BinFacts(max);
    Quotient(x, BinSize(max), 0, max + 1);
  }

  /** x / b lies in lo..hi-1 exactly when x lies in lo*b..hi*b-1. */
  lemma Quotient(x: int, b: int, lo: int, hi: int)
    requires b >= 1 && 0 <= lo && 0 <= x
    ensures lo <= x / b < hi <==> lo * b <= x < hi * b
  {
    var q := x / b;
    assert q * b <= x < q * b + b by { assert x == b * q + x % b; }
    if lo <= q { MulLe(lo, q, b); } else { MulLe(q + 1, lo, b); }
    if q + 1 <= hi { MulLe(q + 1, hi, b); } else { MulLe(hi, q, b); }
    assert (q + 1) * b == q * b + b;
  }

  lemma {:induction false} MulLe(p: int, q: int, b: int)
    requires p <= q && b >= 0
    ensures p * b <= q * b
    decreases q - p
  {
    if p < q {
      MulLe(p, q - 1, b);
      assert q * b == (q - 1) * b + b;
    }
  }

  ghost function Interval(lo: int, hi: int): (r: set<int>)
    ensures forall x :: x in r <==> lo <= x < hi
    ensures |r| == if lo <= hi then hi - lo else 0
    decreases hi - lo
  {
    if hi <= lo then {} else Interval(lo, hi - 1) + {hi - 1}
  }

  /** The accepted draws whose bin lies in lo..hi-1. */
  ghost function DrawsFor(max: int, lo: int, hi: int): set<int>
    requires 0 <= max < NUM_RAND
  {
    BinFacts(max);
    set x | 0 <= x < NUM_RAND && Accepted(max, x) && lo <= x / BinSize(max) < hi
  }

  lemma DrawFor(max: int, lo: int, hi: int, x: int)
    requires 0 <= max < NUM_RAND && 0 <= lo <= hi <= max + 1
    ensures x in DrawsFor(max, lo, hi) <==> lo * BinSize(max) <= x < hi * BinSize(max)
  {
    BinFacts(max);
    var b := BinSize(max);
    MulLe(hi, max + 1, b);
    MulLe(0, lo, b);
    if 0 <= x { Quotient(x, b, lo, hi); }
    hide BinSize;
  }

  lemma CountDraws(max: int, lo: int, hi: int)
    requires 0 <= max < NUM_RAND && 0 <= lo <= hi <= max + 1
    ensures |DrawsFor(max, lo, hi)| == BinSize(max) * (hi - lo)
  {
    BinFacts(max);
    var b := BinSize(max);
    MulLe(lo, hi, b);
    forall x ensures x in DrawsFor(max, lo, hi) <==> x in Interval(lo * b, hi * b) {
      DrawFor(max, lo, hi, x);
    }
    assert DrawsFor(max, lo, hi) == Interval(lo * b, hi * b);
    assert hi * b - lo * b == b * (hi - lo);
  }

  /** Rejection sampling is exactly uniform: every result has bin_size draws. */
  lemma Uniform(max: int, r: int)
    requires 0 <= max < NUM_RAND && 0 <= r <= max
    ensures BinSize(max) >= 1
    ensures |set x | 0 <= x < NUM_RAND && Accepted(max, x) && x / BinSize(max) == r| == BinSize(max)
  {
    BinFacts(max);
    CountDraws(max, r, r + 1);
    assert DrawsFor(max, r, r + 1) == set x | 0 <= x < NUM_RAND && Accepted(max, x) && x / BinSize(max) == r;
  }

  /** More than half of all draws are accepted. */
  lemma MostAccepted(max: int)
    requires 0 <= max < NUM_RAND
    ensures 2 * |set x | 0 <= x < NUM_RAND && Accepted(max, x)| > NUM_RAND
  {
    BinFacts(max);
    var d := NUM_RAND - Defect(max);
    assert (set x | 0 <= x < NUM_RAND && Accepted(max, x)) == Interval(0, d);
    MulLe(1, BinSize(max), max + 1);
  }

  // ----- the scheduler's lottery -----

  /** What scheduler() looks at in a process table slot. */
  datatype Slot = Slot(runnable: bool, tickets: int)

  ghost predicate NonNegative(table: seq<Slot>)
  {
    forall i | 0 <= i < |table| :: table[i].tickets >= 0
  }

  /** Tickets of the RUNNABLE slots before i. */
  ghost function Before(table: seq<Slot>, i: nat): int
    requires i <= |table|
  {
    if i == 0 then 0 else Before(table, i - 1) + if table[i - 1].runnable then table[i - 1].tickets else 0
  }

  /** scheduler()'s first loop. */
  method SumTickets(table: seq<Slot>) returns (total: int)
    ensures total == Before(table, |table|)
  {
    total := 0;
    for p := 0 to |table|
      invariant total == Before(table, p)
    {
      if table[p].runnable {
        total := total + table[p].tickets;
      }
    }
  }

  /** Slot i is the first RUNNABLE one at which the running count reaches the winning ticket. */
  ghost predicate Wins(table: seq<Slot>, w: int, i: nat)
  {
    && i < |table| && table[i].runnable && w <= Before(table, i + 1)
    && forall j | 0 <= j < i && table[j].runnable :: Before(table, j + 1) < w
  }

  /** scheduler()'s second loop; |table| where it finds nobody to run. */
  method Scan(table: seq<Slot>, w: int) returns (i: nat)
    ensures i <= |table|
    ensures i < |table| ==> Wins(table, w, i)
    ensures i == |table| ==> forall j | 0 <= j < |table| :: !Wins(table, w, j)
  {
    var count := 0;
    i := 0;
    while i < |table|
      invariant 0 <= i <= |table| && count == Before(table, i)
      invariant forall j | 0 <= j < i && table[j].runnable :: Before(table, j + 1) < w
    {
      if table[i].runnable {
        count := count + table[i].tickets;
        if !(count < w) {
          return;
        }
      }
      i := i + 1;
    }
  }

  lemma {:induction false} BeforeGrows(table: seq<Slot>, i: nat, j: nat)
    requires i <= j <= |table| && NonNegative(table)
    ensures Before(table, i) <= Before(table, j)
    decreases j
  {
    if i < j { BeforeGrows(table, i, j - 1); }
  }

  ghost predicate First(table: seq<Slot>, i: nat)
    requires i <= |table|
  {
    forall j | 0 <= j < i :: !table[j].runnable
  }

  lemma {:induction false} FirstHasNothingBefore(table: seq<Slot>, i: nat)
    requires i <= |table| && First(table, i)
    ensures Before(table, i) == 0
  {
    if i > 0 { FirstHasNothingBefore(table, i - 1); }
  }

  /** The last RUNNABLE slot before i already counts everything before i. */
  lemma {:induction false} LastBefore(table: seq<Slot>, i: nat) returns (j: nat)
    requires i <= |table| && !First(table, i)
    ensures j < i && table[j].runnable && Before(table, j + 1) == Before(table, i)
  {
    if table[i - 1].runnable { j := i - 1; } else { j := LastBefore(table, i - 1); }
  }

  /** The winning tickets of a slot form an interval as long as its ticket count, plus ticket 0
      for the first RUNNABLE slot. */
  lemma WinningTickets(table: seq<Slot>, w: int, i: nat)
    requires NonNegative(table) && i < |table| && table[i].runnable && 0 <= w
    ensures Wins(table, w, i) <==> (if First(table, i) then 0 else Before(table, i) + 1) <= w < Before(table, i + 1) + 1
  {
    if !First(table, i) {
      var _ := LastBefore(table, i);
    }
    forall j | 0 <= j < i && table[j].runnable ensures Before(table, j + 1) <= Before(table, i) {
      BeforeGrows(table, j + 1, i);
    }
  }

  /** Somebody runs exactly if some slot is RUNNABLE and the draw is at most their total, however
      stale the sum behind the draw was. */
  lemma SomebodyWins(table: seq<Slot>, w: int)
    requires NonNegative(table)
    ensures (exists i: nat :: Wins(table, w, i)) <==> !First(table, |table|) && w <= Before(table, |table|)
  {
    var n := |table|;
    if !First(table, n) && w <= Before(table, n) {
      var k := LastBefore(table, n);
      FirstReaching(table, w, k);
    }
    if exists i: nat :: Wins(table, w, i) {
      var i: nat :| Wins(table, w, i);
      BeforeGrows(table, i + 1, n);
    }
  }

  lemma {:induction false} FirstReaching(table: seq<Slot>, w: int, k: nat)
    requires k < |table| && table[k].runnable && w <= Before(table, k + 1)
    ensures exists i: nat :: Wins(table, w, i)
  {
    if j :| 0 <= j < k && table[j].runnable && w <= Before(table, j + 1) {
      FirstReaching(table, w, j);
    } else {
      assert Wins(table, w, k);
    }
  }

  /** Lottery share: among all generator values that random_at_most accepts, exactly
      bin_size * tickets choose a given process; the first RUNNABLE slot has one ticket more. */
  lemma LotteryShare(table: seq<Slot>, i: nat)
    requires NonNegative(table) && Before(table, |table|) < NUM_RAND
    requires i < |table| && table[i].runnable
    ensures 0 <= Before(table, |table|)
    ensures var total := Before(table, |table|); BinSize(total) >= 1
    ensures var total := Before(table, |table|);
            |set x | 0 <= x < NUM_RAND && Accepted(total, x) && Wins(table, x / BinSize(total), i)|
            == BinSize(total) * (table[i].tickets + if First(table, i) then 1 else 0)
  {
    var total := Before(table, |table|);
    BeforeGrows(table, 0, |table|);
    BinFacts(total);
    BeforeGrows(table, 0, i);
    BeforeGrows(table, i + 1, |table|);
    if First(table, i) { FirstHasNothingBefore(table, i); }
    var lo, hi := if First(table, i) then 0 else Before(table, i) + 1, Before(table, i + 1) + 1;
    CountDraws(total, lo, hi);
    var draws := set x | 0 <= x < NUM_RAND && Accepted(total, x) && Wins(table, x / BinSize(total), i);
    forall x ensures x in draws <==> x in DrawsFor(total, lo, hi) {
      if 0 <= x < NUM_RAND && Accepted(total, x) {
        InBin(total, x);
        WinningTickets(table, x / BinSize(total), i);
      }
    }
    assert draws == DrawsFor(total, lo, hi);
  }

  /** One round of the scheduler: sum, draw, scan. No draw within `fuel` calls leaves ok false. */
  method Round(g: Generator, table: seq<Slot>, fuel: nat) returns (ok: bool, i: nat)
    requires NonNegative(table) && Before(table, |table|) < NUM_RAND
    requires g.mt.Length == N && g.Seeded()
    modifies g, g.mt
    ensures g.Seeded() && g.seed == old(g.seed)
    ensures 0 <= Before(table, |table|)
    ensures ok ==> g.calls > 0 && BinSize(Before(table, |table|)) >= 1
    ensures ok && !First(table, |table|) ==>
              i < |table| && Wins(table, Draw(g.seed, g.calls - 1) / BinSize(Before(table, |table|)), i)
    ensures ok && First(table, |table|) ==> i == |table|
    ensures !ok ==>
              g.calls == old(g.calls) + fuel
              && forall k | old(g.calls) <= k < g.calls :: !Accepted(Before(table, |table|), Draw(g.seed, k))
  {
    BeforeGrows(table, 0, |table|);
    var total := SumTickets(table);
    BinFacts(total);
    var w;
    ok, w := RandomAtMost(g, total, fuel);
    i := |table|;
    if ok {
      i := Scan(table, w);
      SomebodyWins(table, w);
    }
  }
}
