/** How many blocks files take: what mkfs counts out for them. */
module BlockCount {
  import opened Blocks
  import opened Ownership

  /** The data blocks of n bytes, and an indirect block if there are more than NDIRECT. */
  function BlocksFor(n: nat): nat
  {
    var k := (n + BSIZE - 1) / BSIZE;
    if k > NDIRECT then k + 1 else k
  }

  /** The blocks of a list of files. */
  function Need(files: seq<seq<byte>>): nat
  {
    if files == [] then 0 else Need(files[..|files| - 1]) + BlocksFor(|files[|files| - 1]|)
  }

  lemma {:induction false} NeedUpdate(files: seq<seq<byte>>, f: nat, bytes: seq<byte>)
    requires f < |files|
    ensures Need(files[f := bytes]) == Need(files) - BlocksFor(|files[f]|) + BlocksFor(|bytes|)
    ensures Need(files) >= BlocksFor(|files[f]|)
  {
    var n := |files| - 1;
    if f < n {
      NeedUpdate(files[..n], f, bytes);
      assert files[f := bytes][..n] == files[..n][f := bytes];
    } else {
      assert files[f := bytes][..n] == files[..n];
    }
  }

  lemma {:induction false} NeedNothing(files: seq<seq<byte>>)
    requires forall i | 0 <= i < |files| :: files[i] == []
    ensures Need(files) == 0
  {
    if files != [] {
      NeedNothing(files[..|files| - 1]);
    }
  }

  /** Files none of which is longer need no more blocks. */
  lemma {:induction false} NeedLess(files: seq<seq<byte>>, more: seq<seq<byte>>)
    requires |files| == |more| && forall i | 0 <= i < |files| :: |files[i]| <= |more[i]|
    ensures Need(files) <= Need(more)
  {
    var n := |files| - 1;
    if files != [] {
      NeedLess(files[..n], more[..n]);
      MoreBlocks(|files[n]|, |more[n]|);
    }
  }

  lemma MoreBlocks(m: nat, n: nat)
    requires m <= n
    ensures BlocksFor(m) <= BlocksFor(n)
  {
  }

  /** Slot s is needed for n bytes: it is that of a data block inside them, or the indirect one. */
  ghost predicate Needs(n: nat, s: nat)
  {
    (if s <= NDIRECT then s else s - 1) * BSIZE < n
  }

  /** File f, of n bytes, holds blocks in exactly the slots it needs. */
  ghost predicate Exact(held: set<Owner>, f: nat, n: nat)
  {
    forall s | 0 <= s < SLOTS :: Owner(f, s) in held <==> Needs(n, s)
  }

  /** What block fbn of file f takes, and how much of that is not held yet. */
  ghost function Wants(f: nat, fbn: nat): set<Owner>
  {
    {Owner(f, SlotOf(fbn))} + if fbn >= NDIRECT then {Owner(f, NDIRECT)} else {}
  }

  ghost function New(held: set<Owner>, f: nat, fbn: nat): nat
  {
    (if Owner(f, SlotOf(fbn)) in held then 0 else 1) + (if fbn >= NDIRECT && Owner(f, NDIRECT) !in held then 1 else 0)
  }

  /** f grew from off to end bytes, and fb counts the blocks this took; other files hold the same. */
  ghost predicate Counted(held: set<Owner>, held': set<Owner>, f: nat, off: nat, end: nat, fb: nat, fb': nat)
  {
    && Exact(held', f, end) && fb' + BlocksFor(off) == fb + BlocksFor(end)
    && forall o: Owner | o.file != f :: o in held' <==> o in held
  }

  lemma GrowExact(held: set<Owner>, f: nat, off: nat, end: nat)
    requires Exact(held, f, off) && off / BSIZE < MAXFILE && off < end <= (off / BSIZE + 1) * BSIZE
    ensures New(held, f, off / BSIZE) == BlocksFor(end) - BlocksFor(off)
    ensures Exact(held + Wants(f, off / BSIZE), f, end)
  {
    var fbn := off / BSIZE;
    assert fbn * BSIZE <= off < (fbn + 1) * BSIZE;
    assert Owner(f, SlotOf(fbn)) in held <==> Needs(off, SlotOf(fbn));
    assert Owner(f, NDIRECT) in held <==> Needs(off, NDIRECT);
    GrowNeeds(off, end);
  }

  lemma GrowNeeds(off: nat, end: nat)
    requires off / BSIZE < MAXFILE && off < end <= (off / BSIZE + 1) * BSIZE
    ensures forall s | 0 <= s < SLOTS :: Needs(end, s) <==>
              Needs(off, s) || s == SlotOf(off / BSIZE) || (s == NDIRECT && off / BSIZE >= NDIRECT)
  {
  }

  lemma CountedTwice(held: set<Owner>, held1: set<Owner>, held2: set<Owner>, f: nat, off: nat, mid: nat, end: nat,
                     fb: nat, fb1: nat, fb2: nat)
    requires Counted(held, held1, f, off, mid, fb, fb1) && Counted(held1, held2, f, mid, end, fb1, fb2)
    ensures Counted(held, held2, f, off, end, fb, fb2)
  {
  }

  lemma ValuesPlus(owner: map<nat, Owner>, b: nat, o: Owner)
    requires b !in owner
    ensures owner[b := o].Values == owner.Values + {o}
  {
    var now := owner[b := o];
    forall x: Owner
      ensures x in now.Values <==> x in owner.Values || x == o
    {
      if x in owner.Values {
        var k :| k in owner && owner[k] == x;
        assert now[k] == x;
      }
      assert now[b] == o;
    }
  }

  /** A slot is in use exactly if it owns a block. */
  lemma HeldIff(disk: seq<Block>, mem: seq<Inode>, owner: map<nat, Owner>, f: nat, s: nat)
    requires RefsOwned(disk, mem, owner, {}) && f < |mem| && s < SLOTS
    requires forall b | b in owner ::
               b != 0 && owner[b].file < |mem| && owner[b].slot < SLOTS
               && RefOf(disk, mem, owner[b].file, owner[b].slot) == b
    ensures Owner(f, s) in owner.Values <==> RefOf(disk, mem, f, s) != 0
  {
    hide RefOf;
    if RefOf(disk, mem, f, s) != 0 {
      assert owner[RefOf(disk, mem, f, s)] == Owner(f, s);
    }
  }
}
