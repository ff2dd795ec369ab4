/** Frame allocation and address spaces (kalloc.c, vm.c): walkpgdir, mappages, setupkvm, deallocuvm,
    freevm and copyuvm on the frames of physical memory. */
module VirtualMemory {
  import opened Blocks
  import opened PageTables

  /** A line of the kernel's kmap: count pages from page virt on, at frames from phys on. */
  datatype Kmap = Kmap(virt: nat, phys: nat, count: nat, perm: nat)

  const JUNK: word := 0x0101_0101

  ghost predicate FreeOk(frames: seq<Frame>, free: seq<nat>, own: map<nat, Use>)
  {
    && (forall i | 0 <= i < |free| :: free[i] < |frames| && free[i] !in own)
    && (forall i, j | 0 <= i < j < |free| :: free[i] != free[j])
  }

  /** From the frames in avail some went into use for d; the free ones are the rest of avail. */
  ghost predicate Grew(avail: set<nat>, own: map<nat, Use>, free': seq<nat>, own': map<nat, Use>, d: nat)
  {
    && (forall k | k in own :: k in own' && own'[k] == own[k])
    && (forall k | k in own' && k !in own :: k in avail && Belongs(own'[k], k, d))
    && (forall f :: f in free' <==> f in avail && f !in own')
  }

  ghost function SetOf(free: seq<nat>): set<nat>
  {
    set f | f in free
  }

  /** What is new in use is a page table. */
  ghost predicate OnlyTables(own: map<nat, Use>, own': map<nat, Use>)
  {
    forall k | k in own' && k !in own :: own'[k].Table?
  }

  lemma GrewTwice(avail: set<nat>, own: map<nat, Use>, free1: seq<nat>, own1: map<nat, Use>, free2: seq<nat>,
                  own2: map<nat, Use>, d: nat)
    requires Grew(avail, own, free1, own1, d) && Grew(SetOf(free1), own1, free2, own2, d)
    ensures Grew(avail, own, free2, own2, d)
  {
  }

  lemma GrewNot(free: seq<nat>, own: map<nat, Use>, frames: seq<Frame>, d: nat)
    requires FreeOk(frames, free, own)
    ensures Grew(SetOf(free), own, free, own, d)
  {
  }

  /** Only the directory and tables of d, and frames in avail, have changed. */
  ghost predicate Untouched(frames: seq<Frame>, frames': seq<Frame>, own: map<nat, Use>, avail: set<nat>, d: nat)
  {
    |frames'| == |frames|
    && forall k | 0 <= k < |frames| && k !in avail && !(k in own && !own[k].Page? && Belongs(own[k], k, d)) ::
      frames'[k] == frames[k]
  }

  /** Entry by entry the directories map what they mapped. */
  ghost predicate SamePtes(frames: seq<Frame>, frames': seq<Frame>, own: map<nat, Use>)
  {
    |frames'| == |frames| && forall e: nat, qn: nat | IsDir(own, e) && qn < PAGES && e < |frames| ::
      Pte(frames', e, qn) == Pte(frames, e, qn)
  }

  /** Entry (d, pn) is w; every other entry is as it was. */
  ghost predicate OneSet(frames: seq<Frame>, frames': seq<Frame>, own: map<nat, Use>, d: nat, pn: nat, w: word)
  {
    |frames'| == |frames| && forall e: nat, qn: nat | IsDir(own, e) && qn < PAGES && e < |frames| ::
      Pte(frames', e, qn) == if e == d && qn == pn then w else Pte(frames, e, qn)
  }

  class Memory {
    var frames: seq<Frame>
    var free: seq<nat>
    ghost var own: map<nat, Use>

    ghost predicate Ok()
      reads this
    {
      Inv(frames, own) && FreeOk(frames, free, own)
    }

    /** kalloc: the first free frame, none exactly when the list is empty. */
    method Kalloc() returns (ok: bool, f: nat)
      requires Ok()
      modifies this`free
      ensures Ok() && (ok <==> old(free) != [])
      ensures ok ==> f == old(free)[0] && free == old(free)[1..] && f < |frames| && f !in own && f !in free
      ensures !ok ==> free == old(free)
    {
      if free == [] {
        return false, 0;
      }
      ok, f := true, free[0];
      free := free[1..];
    }

    /** kfree: the frame is filled with junk and becomes the first free one. */
    method Kfree(f: nat)
      requires f < |frames| && f !in free
      modifies this`free, this`frames
      ensures free == [f] + old(free) && frames == old(frames)[f := Fill(JUNK)]
    {
      frames := frames[f := Fill(JUNK)];
      free := [f] + free;
    }

    /** walkpgdir: afterwards page pn has a table, taken from the free frames if need be. What is
        mapped does not change. It fails exactly for want of a table that it may not or cannot make. */
    method Walkpgdir(d: nat, pn: nat, alloc: bool) returns (ok: bool)
      requires Ok() && IsDir(own, d) && d < |frames| && pn < PAGES
      modifies this
      ensures Ok() && (ok <==> HasTable(frames, own, d, pn))
      ensures SamePtes(old(frames), frames, old(own)) && Untouched(old(frames), frames, old(own), SetOf(old(free)), d)
      ensures Grew(SetOf(old(free)), old(own), free, own, d) && OnlyTables(old(own), own)
      ensures !ok ==> frames == old(frames) && own == old(own) && free == old(free) && (alloc ==> free == [])
      ensures !alloc || old(Present(frames[d][pn / ENTRIES])) ==>
                frames == old(frames) && own == old(own) && free == old(free)
    {
      GrewNot(free, own, frames, d);
      DirOwnsTables(frames, own, d);
      if Present(frames[d][pn / ENTRIES]) {
        return true;
      }
      if !alloc {
        return false;
      }
      var t;
      ok, t := Kalloc();
      if !ok {
        return;
      }
      TakeTable(frames, own, old(free), free, d, pn, t);
      var cleared := frames[t := Fill(0)];
      frames := cleared[d := cleared[d][pn / ENTRIES := MakePte(t, 7)]];
      own := own[t := Table(d, pn / ENTRIES)];
    }

    /** mappages for one page of user memory, onto a frame that is neither free nor in use. */
    method MapUserPage(d: nat, pn: nat, f: nat, perm: nat) returns (ok: bool)
      requires Ok() && IsDir(own, d) && d < |frames| && pn < KPAGES && !Present(Pte(frames, d, pn))
      requires f < |frames| && f !in own && f !in free && perm < PGSIZE
      modifies this
      ensures Ok() && Untouched(old(frames), frames, old(own), SetOf(old(free)), d)
      ensures !ok ==> free == [] && frames == old(frames) && own == old(own) && free == old(free)
      ensures ok ==> OneSet(old(frames), frames, old(own), d, pn, MakePte(f, perm))
      ensures ok ==> Grew(SetOf(old(free)) + {f}, old(own), free, own, d)
    {
      hide Pte, FreeOk;
      ok := Walkpgdir(d, pn, true);
      if ok {
        assert !Present(Pte(frames, d, pn));
        var t := TableOf(frames, d, pn);
        var w := MakePte(f, perm);
        MapUserStep(old(frames), old(own), old(free), frames, own, free, d, pn, f, w);
        frames := frames[t := frames[t][pn % ENTRIES := w]];
        own := own[f := Page(d, pn)];
      }
    }

    /** mappages on a range of kernel pages; the assertion is the silence of "remap". */
    method MapKernelRange(d: nat, m: Kmap) returns (ok: bool)
      requires Ok() && IsDir(own, d) && d < |frames| && KmapLine(m)
      requires forall qn | m.virt <= qn < m.virt + m.count :: !Present(Pte(frames, d, qn))
      modifies this
      ensures Ok() && IsDir(own, d) && Untouched(old(frames), frames, old(own), SetOf(old(free)), d)
      ensures Grew(SetOf(old(free)), old(own), free, own, d) && OnlyTables(old(own), own)
      ensures !ok ==> free == []
      ensures ok ==> RangeSet(old(frames), frames, old(own), d, m, m.count)
    {
      hide Pte, FreeOk;
      GrewNot(free, own, frames, d) ;
      var i := 0;
      while true
        invariant 0 <= i < m.count && Ok() && IsDir(own, d)
        invariant Untouched(old(frames), frames, old(own), SetOf(old(free)), d)
        invariant Grew(SetOf(old(free)), old(own), free, own, d) && OnlyTables(old(own), own)
        invariant RangeSet(old(frames), frames, old(own), d, m, i)
        decreases m.count - i
      {
        ghost var frames1, free1, own1 := frames, free, own;
        assert !Present(Pte(frames, d, m.virt + i));
        ok := MapKernelPage(d, m.virt + i, MakePte(m.phys + i, m.perm));
        GrewTwice(SetOf(old(free)), old(own), free1, own1, free, own, d);
        UntouchedTwice(old(frames), old(own), SetOf(old(free)), frames1, own1, free1, frames, d);
        if !ok { return; }
        RangeStep(old(frames), frames1, frames, old(own), own1, d, m, i);
        if i + 1 == m.count { return; }
        i := i + 1;
      }
    }

    /** One turn of the loop of mappages, for a kernel page. */
    method MapKernelPage(d: nat, pn: nat, w: word) returns (ok: bool)
      requires Ok() && IsDir(own, d) && d < |frames| && KPAGES <= pn < PAGES
      modifies this
      ensures Ok() && Untouched(old(frames), frames, old(own), SetOf(old(free)), d)
      ensures Grew(SetOf(old(free)), old(own), free, own, d) && OnlyTables(old(own), own)
      ensures !ok ==> free == []
      ensures ok ==> OneSet(old(frames), frames, old(own), d, pn, w)
    {
      hide Pte, FreeOk;
      ok := Walkpgdir(d, pn, true);
      if ok {
        var t := TableOf(frames, d, pn);
        MapKernelStep(old(frames), old(own), old(free), frames, own, free, d, pn, w);
        frames := frames[t := frames[t][pn % ENTRIES := w]];
      }
    }

    /** setupkvm: a new directory with the kernel's mappings and nothing in the user half. It fails
        only if the directory and its tables may need more frames than there are. */
    method Setupkvm(kmap: seq<Kmap>) returns (ok: bool, d: nat)
      requires Ok() && KmapOk(kmap)
      modifies this
      ensures Ok() && SamePtes(old(frames), frames, old(own)) && KeepsUsed(old(frames), old(own), frames, own)
      ensures !ok ==> free == [] && |old(free)| <= 1 + ENTRIES
      ensures ok ==> NewSpace(old(frames), old(own), SetOf(old(free)), frames, own, free, d)
      ensures ok ==> MapsKernel(frames, d, kmap) && forall qn: nat | qn < KPAGES :: Pte(frames, d, qn) == 0
    {
      assert SamePtes(frames, frames, own);
      hide Pte, FreeOk, KernelPte, MapsKernel, Inv, Untouched, SamePtes;
      ok, d := Kalloc();
      if !ok { return; }
      StartSpace(old(frames), own, old(free), free, d);
      frames := frames[d := Fill(0)];
      own := own[d := Dir];
      var i := 0;
      NoLines(kmap);
      while i < |kmap|
        invariant 0 <= i <= |kmap| && Ok()
        invariant NewSpace(old(frames), old(own), SetOf(old(free)), frames, own, free, d)
        invariant NoNewPage(old(own), own) && LinesDone(frames, d, kmap, i)
      {
        ok := MapLine(d, kmap, i, old(frames), old(own), SetOf(old(free)));
        if !ok {
          KeptSpace(old(frames), old(own), SetOf(old(free)), frames, own, free, d);
          SpaceSize(old(frames), old(own), old(free), frames, own, free, d, 0);
          return;
        }
        i := i + 1;
      }
      KeptSpace(old(frames), old(own), SetOf(old(free)), frames, own, free, d);
      AllLines(frames, d, kmap);
    }

    /** One line of the table. */
    method MapLine(d: nat, kmap: seq<Kmap>, i: nat, ghost frames0: seq<Frame>, ghost own0: map<nat, Use>,
                   ghost avail: set<nat>)
      returns (ok: bool)
      requires Ok() && i < |kmap| && NewSpace(frames0, own0, avail, frames, own, free, d) && NoNewPage(own0, own)
      requires LinesDone(frames, d, kmap, i)
      modifies this
      ensures Ok() && NewSpace(frames0, own0, avail, frames, own, free, d) && NoNewPage(own0, own)
      ensures if ok then LinesDone(frames, d, kmap, i + 1) else free == []
    {
      hide Pte, FreeOk, KernelPte, Inv, Untouched, SamePtes;
      LineIsNew(kmap, i);
      ok := MapKernelRange(d, kmap[i]);
      NextLine(frames0, own0, avail, old(frames), old(own), old(free), frames, own, free, d, kmap, i, ok);
    }

    /** The freeing branch of deallocuvm, for a page that is present. */
    method FreeUserPage(d: nat, pn: nat)
      requires Ok() && HasTable(frames, own, d, pn) && pn < KPAGES && Present(Pte(frames, d, pn))
      modifies this
      ensures Ok() && IsDir(own, d) && OneSet(old(frames), frames, old(own), d, pn, 0)
      ensures Shrunk(old(frames), old(own), old(free), frames, own, free, d)
    {
      hide Pte, FreeOk;
      FreeStep(frames, own, free, d, pn);
      var t := TableOf(frames, d, pn);
      var f := FrameOf(frames[t][pn % ENTRIES]);
      assert f == FrameOf(Pte(frames, d, pn)) by { PteIs(frames, own, d, pn); }
      Kfree(f);
      frames := frames[t := frames[t][pn % ENTRIES := 0]];
      own := own - {f};
    }

    /** deallocuvm: the user pages from newsz up to oldsz are gone, and their frames free. The jump
        over a missing table skips nothing that is mapped if the pages start on a table boundary,
        as in freevm, or user memory is contiguous. */
    method Deallocuvm(d: nat, oldsz: nat, newsz: nat, ghost top: nat)
      requires Ok() && IsDir(own, d) && d < |frames| && oldsz <= KPAGES * PGSIZE
      requires UpPages(newsz) % ENTRIES == 0 || Contiguous(frames, d, top)
      modifies this
      ensures Ok() && IsDir(own, d) && Shrunk(old(frames), old(own), old(free), frames, own, free, d)
      ensures forall pn: nat | UpPages(newsz) <= pn < UpPages(oldsz) :: pn < KPAGES && !Present(Pte(frames, d, pn))
      ensures forall pn: nat | pn < PAGES && !(UpPages(newsz) <= pn < UpPages(oldsz)) ::
                Pte(frames, d, pn) == old(Pte(frames, d, pn))
    {
      hide Pte, FreeOk, Shrunk, Inv;
      NotShrunk(frames, own, free, d);
      if newsz >= oldsz { return; }
      var a := UpPages(newsz);
      ghost var start, frames0 := a, frames;
      while a < UpPages(oldsz)
        invariant start <= a && Ok() && IsDir(own, d) && |frames| == |frames0| && frames[d] == frames0[d]
        invariant Shrunk(frames0, old(own), old(free), frames, own, free, d)
        invariant Cleared(frames0, frames, d, start, a, UpPages(oldsz))
        invariant start % ENTRIES == 0 && a % ENTRIES != 0 && a < PAGES ==> Present(frames0[d][a / ENTRIES])
      {
        ghost var frames1, own1, free1, a1 := frames, own, free, a;
        SkipIsEmpty(frames, frames0, own, d, start, a, UpPages(oldsz), top);
        a := DeallocStep(d, a);
        assert StepFrom(frames0, frames1, frames, d, start, a1, a, UpPages(oldsz));
        ShrunkTwice(frames0, old(own), old(free), frames1, own1, free1, frames, own, free, d);
        ClearedMore(frames0, frames1, frames, d, start, a, UpPages(oldsz));
      }
    }

    /** One turn of the loop of deallocuvm; the result is where the next one looks. */
    method DeallocStep(d: nat, a: nat) returns (next: nat)
      requires Ok() && IsDir(own, d) && d < |frames| && a < KPAGES
      requires HasTable(frames, own, d, a) || AbsentUpTo(frames, d, a, a + ENTRIES)
      modifies this
      ensures Ok() && IsDir(own, d) && |frames| == old(|frames|) && frames[d] == old(frames)[d]
      ensures Shrunk(old(frames), old(own), old(free), frames, own, free, d)
      ensures AbsentUpTo(frames, d, a, next)
      ensures forall pn: nat | pn < PAGES && pn != a :: Pte(frames, d, pn) == Pte(old(frames), d, pn)
      ensures (next == a + 1 && Present(frames[d][a / ENTRIES]))
              || (next == a + ENTRIES && frames == old(frames) && !Present(frames[d][a / ENTRIES]))
    {
      hide Pte, FreeOk, Inv;
      NotShrunk(frames, own, free, d);
      DirOwnsTables(frames, own, d);
      var ok := Walkpgdir(d, a, false);
      if !ok {
        return a + ENTRIES;
      }
      PteIs(frames, own, d, a);
      var t := TableOf(frames, d, a);
      if Present(frames[t][a % ENTRIES]) {
        DirStays(frames, own, d);
        FreeUserPage(d, a);
      }
      next := a + 1;
    }

    /** freevm: every frame of the address space is free again, and every other space is as it was. */
    method Freevm(d: nat)
      requires Ok() && IsDir(own, d) && d < |frames|
      modifies this
      ensures Ok() && own == Without(old(own), d) && |frames| == old(|frames|)
      ensures forall f :: f in free <==> f in old(free) || (f in old(own) && f !in own)
      ensures forall k | k in own && k < |frames| :: frames[k] == old(frames)[k]
    {
      hide Pte, FreeOk, Inv;
      Deallocuvm(d, KPAGES * PGSIZE, 0, 0);
      ghost var frames1, own1, free1 := frames, own, free;
      assert UpPages(0) == 0 && UpPages(KPAGES * PGSIZE) == KPAGES;
      BeginDrop(frames, own, free, d);
      own := Without(own, d);
      var i := 0;
      while i < ENTRIES
        invariant 0 <= i <= ENTRIES && |frames| == |frames1| && d < |frames| && frames[d] == frames1[d]
                  && own == Without(own1, d)
        invariant Dropping(frames1, own1, free1, frames, free, d, i)
      {
        DropStep(frames1, own1, free1, frames, free, d, i);
        if Present(frames[d][i]) {
          Kfree(FrameOf(frames[d][i]));
        }
        i := i + 1;
      }
      LastDrop(frames1, own1, free1, frames, free, d);
      Kfree(d);
      EndDrop(old(frames), old(own), old(free), frames1, own1, free1, frames, free, d);
    }

    /** copyuvm of a fully mapped [0, sz): a new space whose user pages have the flags and the bytes
        of the parent's, each in a frame that was free; the parent and every other space are as they
        were, also when it fails, which it does only for want of frames. */
    method Copyuvm(pgdir: nat, sz: nat, kmap: seq<Kmap>) returns (ok: bool, d: nat)
      requires Ok() && KmapOk(kmap) && IsDir(own, pgdir) && pgdir < |frames| && UpPages(sz) <= KPAGES
      requires forall pn: nat | pn < UpPages(sz) :: Present(Pte(frames, pgdir, pn))
      modifies this
      ensures Ok() && KeepsUsed(old(frames), old(own), frames, own)
      ensures !ok ==> |old(free)| <= 2 + ENTRIES + UpPages(sz)
      ensures ok ==> NewSpace(old(frames), old(own), SetOf(old(free)), frames, own, free, d)
      ensures ok ==> Copied(old(frames), SetOf(old(free)), frames, pgdir, d, UpPages(sz), kmap)
    {
      assert forall k | k in own :: k !in SetOf(free);
      hide Pte, FreeOk, Inv, Untouched, KmapOk, CopiedPage, OnlyOne, CopiedOne, MapsKernel;
      ok, d := Setupkvm(kmap);
      if !ok { return; }
      var i := 0;
      while i < UpPages(sz)
        invariant 0 <= i <= UpPages(sz) && Ok()
        invariant NewSpace(old(frames), old(own), SetOf(old(free)), frames, own, free, d)
        invariant Copied(old(frames), SetOf(old(free)), frames, pgdir, d, i, kmap)
      {
        ghost var frames1, own1, free1 := frames, own, free;
        assert Present(Pte(frames, pgdir, i));
        ok := CopyPage(pgdir, d, i);
        if !ok {
          CopyFails(old(frames), old(own), old(free), frames1, own1, free1, frames, pgdir, d, i, kmap);
          Freevm(d);
          return;
        }
        NextCopy(old(frames), old(own), SetOf(old(free)), frames1, own1, free1, frames, own, free, pgdir, d, i, kmap);
        i := i + 1;
      }
      KeptSpace(old(frames), old(own), SetOf(old(free)), frames, own, free, d);
    }

    /** One turn of the loop of copyuvm. */
    method CopyPage(pgdir: nat, d: nat, pn: nat) returns (ok: bool)
      requires Ok() && IsDir(own, pgdir) && IsDir(own, d) && pgdir != d && pgdir < |frames| && d < |frames|
               && pn < KPAGES
      requires Present(Pte(frames, pgdir, pn)) && Pte(frames, d, pn) == 0
      modifies this
      ensures Ok() && IsDir(own, d) && d < |frames|
      ensures !ok ==>
                own == old(own) && |old(free)| <= 1 && Untouched(old(frames), frames, old(own), SetOf(old(free)), d)
      ensures ok ==>
                Grew(SetOf(old(free)), old(own), free, own, d)
                && Untouched(old(frames), frames, old(own), SetOf(old(free)), d)
      ensures ok ==>
                CopiedOne(old(frames), SetOf(old(free)), frames, pgdir, d, pn)
                && OnlyOne(old(frames), frames, old(own), d, pn)
    {
      hide Pte, FreeOk, Inv;
      var yes := Walkpgdir(pgdir, pn, false);
      PresentHasTable(frames, own, pgdir, pn);
      assert yes;
      PteIs(frames, own, pgdir, pn);
      var pte := frames[TableOf(frames, pgdir, pn)][pn % ENTRIES];
      PageInRange(frames, own, pgdir, pn);
      var pa, flags := FrameOf(pte), Flags(pte);
      var mem;
      ok, mem := Kalloc();
      if !ok { return; }
      ghost var frames1 := frames;
      FillFrame(frames, own, free, mem, frames[pa]);
      frames := frames[mem := frames[pa]];
      ghost var frames2, free2 := frames, free;
      ok := MapUserPage(d, pn, mem, flags);
      if ok {
        CopyDone(frames1, old(own), old(free), mem, frames2, free2, frames, own, free, pgdir, d, pn, pte);
      }
    }

    /** copyuvm, then freevm of the copy: the free frames are exactly those that were free. */
    method CopyThenFree(pgdir: nat, sz: nat, kmap: seq<Kmap>) returns (ok: bool)
      requires Ok() && KmapOk(kmap) && IsDir(own, pgdir) && pgdir < |frames| && UpPages(sz) <= KPAGES
      requires forall pn: nat | pn < UpPages(sz) :: Present(Pte(frames, pgdir, pn))
      modifies this
      ensures Ok() && (ok ==> SetOf(free) == SetOf(old(free)) && own == old(own))
      ensures !ok ==> |old(free)| <= 2 + ENTRIES + UpPages(sz)
    {
      hide Pte, FreeOk, Inv, Untouched, SamePtes, Copied;
      var d;
      ok, d := Copyuvm(pgdir, sz, kmap);
      if ok {
        ghost var own1, free1 := own, free;
        Freevm(d);
        GoneAgain(old(frames), old(own), old(free), own1, free1, own, free, d);
      }
    }
  }

  // ---------------------------------------------------------------- copies

  /** Page pn of d has the flags and the bytes of page pn of pgdir, in a frame that was free. */
  ghost predicate CopiedPage(frames0: seq<Frame>, avail: set<nat>, frames: seq<Frame>, pgdir: nat, d: nat, pn: nat)
    requires pgdir < |frames0| == |frames| && d < |frames| && pn < PAGES
  {
    var was, now := Pte(frames0, pgdir, pn), Pte(frames, d, pn);
    && Present(now) && Flags(now) == Flags(was)
    && FrameOf(now) in avail && FrameOf(now) < |frames| && FrameOf(was) < |frames|
    && frames[FrameOf(now)] == frames0[FrameOf(was)]
  }

  ghost predicate Copied(frames0: seq<Frame>, avail: set<nat>, frames: seq<Frame>, pgdir: nat, d: nat, n: nat,
                         kmap: seq<Kmap>)
  {
    && pgdir < |frames0| == |frames| && d < |frames| && n <= KPAGES
    && (forall pn: nat | pn < n :: CopiedPage(frames0, avail, frames, pgdir, d, pn))
    && (forall pn: nat | n <= pn < KPAGES :: Pte(frames, d, pn) == 0)
    && MapsKernel(frames, d, kmap)
  }

  ghost predicate CopiedOne(frames0: seq<Frame>, avail: set<nat>, frames: seq<Frame>, pgdir: nat, d: nat, pn: nat)
  {
    pgdir < |frames0| == |frames| && d < |frames| && pn < PAGES && CopiedPage(frames0, avail, frames, pgdir, d, pn)
  }

  ghost predicate OnlyOne(frames: seq<Frame>, frames': seq<Frame>, own: map<nat, Use>, d: nat, pn: nat)
  {
    |frames'| == |frames|
    && forall e: nat, qn: nat | IsDir(own, e) && qn < PAGES && e < |frames| && !(e == d && qn == pn) ::
      Pte(frames', e, qn) == Pte(frames, e, qn)
  }

  lemma PresentHasTable(frames: seq<Frame>, own: map<nat, Use>, d: nat, pn: nat)
    requires Inv(frames, own) && IsDir(own, d) && d < |frames| && pn < PAGES && Present(Pte(frames, d, pn))
    ensures HasTable(frames, own, d, pn)
  {
    DirOwnsTables(frames, own, d);
  }

  lemma PageInRange(frames: seq<Frame>, own: map<nat, Use>, d: nat, pn: nat)
    requires Inv(frames, own) && IsDir(own, d) && d < |frames| && pn < KPAGES && Present(Pte(frames, d, pn))
    ensures FrameOf(Pte(frames, d, pn)) < |frames| <= TWO32 / PGSIZE && FrameOf(Pte(frames, d, pn)) in own
    ensures own[FrameOf(Pte(frames, d, pn))] == Page(d, pn)
  {
    assert PagesOwned(frames, own, d);
    assert UseRight(frames, own, FrameOf(Pte(frames, d, pn)));
  }

  /** Filling a frame that has no use changes no mapping. */
  lemma FillFrame(frames: seq<Frame>, own: map<nat, Use>, free: seq<nat>, f: nat, data: Frame)
    requires Inv(frames, own) && FreeOk(frames, free, own) && f < |frames| && f !in own
    ensures Inv(frames[f := data], own) && FreeOk(frames[f := data], free, own)
            && SamePtes(frames, frames[f := data], own)
  {
    var frames' := frames[f := data];
    SameInv(frames, frames', own);
    forall e: nat, qn: nat | IsDir(own, e) && qn < PAGES && e < |frames|
      ensures Pte(frames', e, qn) == Pte(frames, e, qn)
    {
      SamePte(frames, frames', own, e, qn);
    }
  }

  lemma CopyDone(frames1: seq<Frame>, own: map<nat, Use>, free: seq<nat>, mem: nat, frames2: seq<Frame>,
                 free2: seq<nat>,
                 frames3: seq<Frame>, own3: map<nat, Use>, free3: seq<nat>, pgdir: nat, d: nat, pn: nat, pte: word)
    requires FreeOk(frames1, free, own) && free != [] && mem == free[0] && free2 == free[1..]
    requires IsDir(own, pgdir) && IsDir(own, d) && pgdir != d && pgdir < |frames1| && d < |frames1| && pn < KPAGES
             && mem < |frames1|
    requires pte == Pte(frames1, pgdir, pn) && Present(pte) && FrameOf(pte) < |frames1| <= TWO32 / PGSIZE
    requires frames2 == frames1[mem := frames1[FrameOf(pte)]] && SamePtes(frames1, frames2, own)
    requires Untouched(frames2, frames3, own, SetOf(free2), d)
             && OneSet(frames2, frames3, own, d, pn, MakePte(mem, Flags(pte)))
    requires Grew(SetOf(free2) + {mem}, own, free3, own3, d)
    ensures Grew(SetOf(free), own, free3, own3, d) && Untouched(frames1, frames3, own, SetOf(free), d)
    ensures CopiedOne(frames1, SetOf(free), frames3, pgdir, d, pn) && OnlyOne(frames1, frames3, own, d, pn)
  {
    hide Pte;
    assert SetOf(free2) + {mem} == SetOf(free) by { assert free == [mem] + free2; }
    assert mem !in free2 && mem !in own;
    FlagsOdd(pte);
  }

  lemma FlagsOdd(pte: word)
    requires Present(pte)
    ensures Flags(pte) % 2 == 1
  {
  }

  /** A page copied earlier stays copied. */
  lemma StillCopied(frames: seq<Frame>, avail: set<nat>, frames1: seq<Frame>, own1: map<nat, Use>, free1: seq<nat>,
                    frames2: seq<Frame>, pgdir: nat, d: nat, i: nat, pn: nat)
    requires pgdir < |frames| == |frames1| && d < |frames1| && pn < KPAGES && pn != i
             && CopiedPage(frames, avail, frames1, pgdir, d, pn)
    requires Inv(frames1, own1) && IsDir(own1, d) && forall k | k in own1 :: k !in free1
    requires Untouched(frames1, frames2, own1, SetOf(free1), d) && OnlyOne(frames1, frames2, own1, d, i)
    ensures CopiedPage(frames, avail, frames2, pgdir, d, pn)
  {
    PageInRange(frames1, own1, d, pn);
    hide Pte, Inv;
  }

  /** The page just copied is a copy of the parent's page as it was at the start. */
  lemma CopiedFromStart(frames: seq<Frame>, own: map<nat, Use>, avail: set<nat>, frames1: seq<Frame>, free1: seq<nat>,
                        own1: map<nat, Use>, frames2: seq<Frame>, pgdir: nat, d: nat, i: nat)
    requires Inv(frames, own) && IsDir(own, pgdir) && pgdir < |frames| && d < |frames1| && d !in own && i < KPAGES
             && Present(Pte(frames, pgdir, i))
    requires forall k | k in own :: k !in avail
    requires SamePtes(frames, frames1, own) && Untouched(frames, frames1, own, avail, d)
             && Grew(avail, own, free1, own1, d)
    requires |frames2| == |frames1| && CopiedPage(frames1, SetOf(free1), frames2, pgdir, d, i)
    ensures CopiedPage(frames, avail, frames2, pgdir, d, i)
  {
    PageInRange(frames, own, pgdir, i);
    hide Pte, Inv;
  }

  lemma NextCopy(frames: seq<Frame>, own: map<nat, Use>, avail: set<nat>, frames1: seq<Frame>, own1: map<nat, Use>,
                 free1: seq<nat>,
                 frames2: seq<Frame>, own2: map<nat, Use>, free2: seq<nat>, pgdir: nat, d: nat, i: nat,
                 kmap: seq<Kmap>)
    requires NewSpace(frames, own, avail, frames1, own1, free1, d) && Copied(frames, avail, frames1, pgdir, d, i, kmap)
             && i < KPAGES
    requires Inv(frames, own) && (forall k | k in own :: k !in avail) && Present(Pte(frames, pgdir, i))
    requires Inv(frames1, own1) && IsDir(own, pgdir) && pgdir < |frames|
    requires Grew(SetOf(free1), own1, free2, own2, d) && Untouched(frames1, frames2, own1, SetOf(free1), d)
    requires CopiedOne(frames1, SetOf(free1), frames2, pgdir, d, i) && OnlyOne(frames1, frames2, own1, d, i)
    ensures NewSpace(frames, own, avail, frames2, own2, free2, d)
            && Copied(frames, avail, frames2, pgdir, d, i + 1, kmap)
  {
    hide Pte, Inv;
    GrewTwice(avail, own, free1, own1, free2, own2, d);
    UntouchedTwice(frames, own, avail, frames1, own1, free1, frames2, d);
    assert MapsKernel(frames2, d, kmap) by { StillMapsKernel(frames1, frames2, own1, d, i, kmap); }
    assert Copied(frames, avail, frames2, pgdir, d, i + 1, kmap) by {
      CopiedFromStart(frames, own, avail, frames1, free1, own1, frames2, pgdir, d, i);
      hide CopiedPage, MapsKernel;
      forall pn: nat | pn < i
        ensures CopiedPage(frames, avail, frames2, pgdir, d, pn)
      {
        StillCopied(frames, avail, frames1, own1, free1, frames2, pgdir, d, i, pn);
      }
    }
  }

  lemma StillMapsKernel(frames: seq<Frame>, frames': seq<Frame>, own: map<nat, Use>, d: nat, pn: nat, kmap: seq<Kmap>)
    requires MapsKernel(frames, d, kmap) && OnlyOne(frames, frames', own, d, pn) && IsDir(own, d) && pn < KPAGES
    ensures MapsKernel(frames', d, kmap)
  {
    hide Pte, LineMapped;
    forall i | 0 <= i < |kmap|
      ensures LineSet(frames', d, kmap[i])
    {
      assert LineSet(frames, d, kmap[i]);
    }
  }

  /** No frame holds two user pages, of one space or of two. */
  lemma NotShared(frames: seq<Frame>, own: map<nat, Use>, d: nat, pn: nat, e: nat, qn: nat)
    requires Inv(frames, own) && IsDir(own, d) && IsDir(own, e) && d < |frames| && e < |frames| && pn < KPAGES
             && qn < KPAGES
    requires Present(Pte(frames, d, pn)) && Present(Pte(frames, e, qn))
             && FrameOf(Pte(frames, d, pn)) == FrameOf(Pte(frames, e, qn))
    ensures d == e && pn == qn
  {
    PageInRange(frames, own, d, pn);
    PageInRange(frames, own, e, qn);
  }

  /** Every frame in use is still in use, for the same thing and with the same contents. */
  ghost predicate KeepsUsed(frames: seq<Frame>, own: map<nat, Use>, frames': seq<Frame>, own': map<nat, Use>)
  {
    |frames'| == |frames|
    && forall k | k in own && k < |frames| :: k in own' && own'[k] == own[k] && frames'[k] == frames[k]
  }

  lemma KeptSpace(frames: seq<Frame>, own: map<nat, Use>, avail: set<nat>, frames1: seq<Frame>, own1: map<nat, Use>,
                  free1: seq<nat>, d: nat)
    requires Inv(frames, own) && NewSpace(frames, own, avail, frames1, own1, free1, d)
             && forall k | k in own :: k !in avail
    ensures KeepsUsed(frames, own, frames1, own1)
  {
    hide Pte;
    forall k | k in own && k < |frames|
      ensures frames1[k] == frames[k]
    {
      assert UseRight(frames, own, k);
    }
  }

  lemma {:induction false} SetSize(s: seq<nat>)
    ensures |SetOf(s)| <= |s|
    ensures (forall i, j | 0 <= i < j < |s| :: s[i] != s[j]) ==> |SetOf(s)| == |s|
  {
    if s != [] {
      var n := |s| - 1;
      SetSize(s[..n]);
      assert SetOf(s) == SetOf(s[..n]) + {s[n]};
    } else {
      assert SetOf(s) == {};
    }
  }

  lemma SubsetSize(a: set<nat>, b: set<nat>)
    requires a <= b
    ensures |a| <= |b|
  {
    assert b == a + (b - a);
  }

  /** A space takes one frame for the directory, one for each table and one for each page. */
  lemma SpaceSize(frames: seq<Frame>, own: map<nat, Use>, free: seq<nat>, frames1: seq<Frame>, own1: map<nat, Use>,
                  free1: seq<nat>, d: nat, n: nat)
    requires FreeOk(frames, free, own) && Grew(SetOf(free), own, free1, own1, d) && Inv(frames1, own1)
             && IsDir(own1, d) && n <= KPAGES
    requires forall k | k in own1 && k !in own && own1[k].Page? :: own1[k].pn < n
    ensures |free| <= 1 + ENTRIES + n + |free1|
  {
    hide Pte;
    assert UseRight(frames1, own1, d);
    var tables := seq(ENTRIES, i requires 0 <= i < ENTRIES => FrameOf(frames1[d][i]));
    var pages := seq(n, pn requires 0 <= pn < n => FrameOf(Pte(frames1, d, pn)));
    var all := [d] + tables + pages + free1;
    forall f | f in SetOf(free)
      ensures f in SetOf(all)
    {
      if f !in free1 {
        assert UseRight(frames1, own1, f);
        match own1[f]
        case Dir =>
        case Table(_, i) => assert tables[i] == f;
        case Page(_, pn) => assert pages[pn] == f;
      }
    }
    SetSize(all);
    SetSize(free);
    SubsetSize(SetOf(free), SetOf(all));
  }

  /** copyuvm out of frames: what was in use before is untouched. */
  lemma CopyFails(frames: seq<Frame>, own: map<nat, Use>, free: seq<nat>, frames1: seq<Frame>, own1: map<nat, Use>,
                  free1: seq<nat>, frames2: seq<Frame>, pgdir: nat, d: nat, i: nat, kmap: seq<Kmap>)
    requires Inv(frames, own) && FreeOk(frames, free, own) && Inv(frames1, own1) && |free1| <= 1
    requires NewSpace(frames, own, SetOf(free), frames1, own1, free1, d)
             && Copied(frames, SetOf(free), frames1, pgdir, d, i, kmap)
    requires Untouched(frames1, frames2, own1, SetOf(free1), d)
    ensures KeepsUsed(frames, own, frames2, Without(own1, d)) && |free| <= 2 + ENTRIES + i
  {
    hide Pte;
    forall k | k in own1 && k !in own && own1[k].Page?
      ensures own1[k].pn < i
    {
      assert UseRight(frames1, own1, k);
    }
    SpaceSize(frames, own, free, frames1, own1, free1, d, i);
    hide Grew;
    assert KeepsUsed(frames, own, frames2, Without(own1, d)) by {
      KeptFailing(frames, own, free, frames1, own1, free1, frames2, d);
    }
  }

  lemma KeptFailing(frames: seq<Frame>, own: map<nat, Use>, free: seq<nat>, frames1: seq<Frame>, own1: map<nat, Use>,
                    free1: seq<nat>, frames2: seq<Frame>, d: nat)
    requires Inv(frames, own) && FreeOk(frames, free, own)
             && NewSpace(frames, own, SetOf(free), frames1, own1, free1, d)
    requires Untouched(frames1, frames2, own1, SetOf(free1), d)
    ensures KeepsUsed(frames, own, frames2, Without(own1, d))
  {
    hide Pte;
    KeptSpace(frames, own, SetOf(free), frames1, own1, free1, d);
    forall k | k in own && k < |frames|
      ensures frames2[k] == frames1[k] && !Belongs(own[k], k, d)
    {
      assert UseRight(frames, own, k);
    }
  }

  lemma GoneAgain(frames: seq<Frame>, own: map<nat, Use>, free: seq<nat>, own1: map<nat, Use>, free1: seq<nat>,
                  own2: map<nat, Use>, free2: seq<nat>, d: nat)
    requires FreeOk(frames, free, own) && Inv(frames, own) && d !in own && Grew(SetOf(free), own, free1, own1, d)
    requires own2 == Without(own1, d) && forall f :: f in free2 <==> f in free1 || (f in own1 && f !in own2)
    ensures own2 == own && SetOf(free2) == SetOf(free)
  {
  }

  // ---------------------------------------------------------------- the end of an address space

  /** The first n tables of d are free again. */
  ghost predicate Dropping(frames1: seq<Frame>, own1: map<nat, Use>, free1: seq<nat>, frames: seq<Frame>,
                           free: seq<nat>, d: nat, n: nat)
  {
    && |frames| == |frames1|
    && (forall f :: f in free <==> f in free1 || (f in own1 && own1[f].Table? && own1[f].dir == d && own1[f].i < n))
    && (forall i, j | 0 <= i < j < |free| :: free[i] != free[j])
    && (forall k | 0 <= k < |frames| && k !in free :: frames[k] == frames1[k])
  }

  lemma BeginDrop(frames1: seq<Frame>, own1: map<nat, Use>, free1: seq<nat>, d: nat)
    requires Inv(frames1, own1) && FreeOk(frames1, free1, own1) && IsDir(own1, d)
    ensures d < |frames1| && Inv(frames1, Without(own1, d)) && Dropping(frames1, own1, free1, frames1, free1, d, 0)
  {
    assert UseRight(frames1, own1, d);
    DropDir(frames1, own1, d);
    hide Inv;
  }

  lemma DropStep(frames1: seq<Frame>, own1: map<nat, Use>, free1: seq<nat>, frames: seq<Frame>, free: seq<nat>,
                 d: nat, i: nat)
    requires Inv(frames1, own1) && FreeOk(frames1, free1, own1) && IsDir(own1, d) && d < |frames| && i < ENTRIES
    requires Dropping(frames1, own1, free1, frames, free, d, i) && frames[d] == frames1[d]
    ensures !Present(frames[d][i]) ==> Dropping(frames1, own1, free1, frames, free, d, i + 1)
    ensures Present(frames[d][i]) ==>
      var f := FrameOf(frames[d][i]);
      f < |frames| && f !in free && f != d
      && Dropping(frames1, own1, free1, frames[f := Fill(JUNK)], [f] + free, d, i + 1)
  {
    assert TablesOwned(frames1, own1, d);
    if Present(frames[d][i]) {
      var f := FrameOf(frames[d][i]);
      assert UseRight(frames1, own1, f);
      OnlyEntry(frames1, own1, d, i);
    } else {
      OnlyEntry(frames1, own1, d, i);
    }
  }

  /** The table recorded for entry i of d is the one the entry names. */
  lemma OnlyEntry(frames1: seq<Frame>, own1: map<nat, Use>, d: nat, i: nat)
    requires Inv(frames1, own1) && IsDir(own1, d) && d < |frames1| && i < ENTRIES
    ensures forall f | f in own1 && own1[f] == Table(d, i) :: Present(frames1[d][i]) && f == FrameOf(frames1[d][i])
  {
    forall f | f in own1 && own1[f] == Table(d, i)
      ensures Present(frames1[d][i]) && f == FrameOf(frames1[d][i])
    {
      assert UseRight(frames1, own1, f);
    }
  }

  lemma LastDrop(frames1: seq<Frame>, own1: map<nat, Use>, free1: seq<nat>, frames: seq<Frame>, free: seq<nat>, d: nat)
    requires Inv(frames1, own1) && FreeOk(frames1, free1, own1) && IsDir(own1, d)
             && Dropping(frames1, own1, free1, frames, free, d, ENTRIES)
    ensures d < |frames| && d !in free
  {
    assert UseRight(frames1, own1, d);
  }

  lemma NoPagesLeft(frames1: seq<Frame>, own1: map<nat, Use>, d: nat)
    requires Inv(frames1, own1) && d < |frames1| && forall pn: nat | pn < KPAGES :: !Present(Pte(frames1, d, pn))
    ensures forall f | f in own1 && own1[f].Page? :: own1[f].dir != d
    ensures forall f | f in own1 :: f < |frames1|
  {
    hide Pte;
    forall f | f in own1
      ensures f < |frames1| && (own1[f].Page? ==> own1[f].dir != d)
    {
      assert UseRight(frames1, own1, f);
    }
  }

  /** Which frames are free at the end. */
  lemma FreeAtEnd(frames: seq<Frame>, own: map<nat, Use>, free: seq<nat>, frames1: seq<Frame>, own1: map<nat, Use>,
                  free1: seq<nat>, frames2: seq<Frame>, free2: seq<nat>, d: nat)
    requires Shrunk(frames, own, free, frames1, own1, free1, d) && IsDir(own1, d)
    requires forall f | f in own1 && own1[f].Page? :: own1[f].dir != d
    requires forall f | f in own1 && own1[f].Table? :: own1[f].i < ENTRIES
    requires free2 != [] && free2[0] == d && Dropping(frames1, own1, free1, frames2, free2[1..], d, ENTRIES)
    ensures Without(own1, d) == Without(own, d)
    ensures forall f :: f in free2 <==> f in free || (f in own && f !in Without(own1, d))
  {
    assert free2 == [d] + free2[1..];
    forall f
      ensures f in free2 <==> f in free || (f in own && f !in Without(own1, d))
    {
      assert f in free2 <==> f == d || f in free2[1..];
    }
  }

  lemma FreeOkAtEnd(frames1: seq<Frame>, own1: map<nat, Use>, free1: seq<nat>, frames2: seq<Frame>, free2: seq<nat>,
                    d: nat)
    requires FreeOk(frames1, free1, own1) && IsDir(own1, d) && forall f | f in own1 :: f < |frames1|
    requires free2 != [] && free2[0] == d && d !in free2[1..]
             && Dropping(frames1, own1, free1, frames2, free2[1..], d, ENTRIES)
    ensures FreeOk(frames2, free2, Without(own1, d))
  {
    var rest := free2[1..];
    assert free2 == [d] + rest;
    forall i | 0 <= i < |free2|
      ensures free2[i] < |frames2| && free2[i] !in Without(own1, d)
    {
      if i > 0 {
        assert rest[i - 1] in rest;
      }
    }
  }

  lemma EndDrop(frames: seq<Frame>, own: map<nat, Use>, free: seq<nat>, frames1: seq<Frame>, own1: map<nat, Use>,
                free1: seq<nat>, frames2: seq<Frame>, free2: seq<nat>, d: nat)
    requires Inv(frames1, own1) && FreeOk(frames1, free1, own1) && IsDir(own1, d) && d < |frames1|
    requires Shrunk(frames, own, free, frames1, own1, free1, d)
    requires forall pn: nat | pn < KPAGES :: !Present(Pte(frames1, d, pn))
    requires |frames2| == |frames1| && free2 != [] && free2[0] == d && d !in free2[1..]
    requires Dropping(frames1, own1, free1, frames2[d := frames1[d]], free2[1..], d, ENTRIES)
    ensures var own2 := Without(own1, d);
      && own2 == Without(own, d) && Inv(frames2, own2) && FreeOk(frames2, free2, own2)
      && (forall f :: f in free2 <==> f in free || (f in own && f !in own2))
      && (forall k | k in own2 && k < |frames2| :: frames2[k] == frames[k])
  {
    var own2, frames3 := Without(own1, d), frames2[d := frames1[d]];
    NoPagesLeft(frames1, own1, d);
    EntriesInRange(frames1, own1);
    DropDir(frames1, own1, d);
    hide Pte, Inv;
    FreeAtEnd(frames, own, free, frames1, own1, free1, frames3, free2, d);
    FreeOkAtEnd(frames1, own1, free1, frames3, free2, d);
    forall k | k in own2 && k < |frames2|
      ensures frames2[k] == frames1[k] && frames1[k] == frames[k]
    {
      assert k !in free2[1..];
    }
    SameInv(frames1, frames2, own2);
  }

  lemma EntriesInRange(frames1: seq<Frame>, own1: map<nat, Use>)
    requires Inv(frames1, own1)
    ensures forall f | f in own1 && own1[f].Table? :: own1[f].i < ENTRIES
  {
    forall f | f in own1 && own1[f].Table?
      ensures own1[f].i < ENTRIES
    {
      assert UseRight(frames1, own1, f);
    }
  }

  ghost predicate AbsentUpTo(frames: seq<Frame>, d: nat, a: nat, b: nat)
    requires d < |frames|
  {
    forall pn: nat | a <= pn < b && pn < KPAGES :: !Present(Pte(frames, d, pn))
  }

  /** From start up to a nothing is mapped any more; outside [start, a) and end nothing changed. */
  ghost predicate Cleared(frames0: seq<Frame>, frames: seq<Frame>, d: nat, start: nat, a: nat, end: nat)
    requires d < |frames0| && d < |frames|
  {
    && AbsentUpTo(frames, d, start, a)
    && forall pn: nat | pn < PAGES && !(start <= pn < a && pn < end) :: Pte(frames, d, pn) == Pte(frames0, d, pn)
  }

  lemma ClearedMore(frames0: seq<Frame>, frames1: seq<Frame>, frames2: seq<Frame>, d: nat, start: nat, next: nat,
                    end: nat)
    requires d < |frames0| == |frames1| == |frames2|
    requires exists a: nat ::
               start <= a < end && a < next && StepFrom(frames0, frames1, frames2, d, start, a, next, end)
    ensures Cleared(frames0, frames2, d, start, next, end)
  {
    hide Pte;
  }

  ghost predicate StepFrom(frames0: seq<Frame>, frames1: seq<Frame>, frames2: seq<Frame>, d: nat, start: nat, a: nat,
                           next: nat, end: nat)
    requires d < |frames0| == |frames1| == |frames2|
  {
    && Cleared(frames0, frames1, d, start, a, end) && AbsentUpTo(frames2, d, a, next)
    && forall pn: nat | pn < PAGES && pn != a :: Pte(frames2, d, pn) == Pte(frames1, d, pn)
  }

  lemma DirStays(frames: seq<Frame>, own: map<nat, Use>, d: nat)
    requires Inv(frames, own) && IsDir(own, d)
    ensures d < |frames|
  {
    assert UseRight(frames, own, d);
  }

  /** PGROUNDUP, in pages. */
  function UpPages(sz: nat): (r: nat)
    ensures sz <= PGSIZE * r < sz + PGSIZE
  {
    (sz + PGSIZE - 1) / PGSIZE
  }

  /** User memory is the pages below top. */
  ghost predicate Contiguous(frames: seq<Frame>, d: nat, top: nat)
    requires d < |frames|
  {
    forall pn: nat | pn < KPAGES :: Present(Pte(frames, d, pn)) <==> pn < top
  }

  lemma PteIs(frames: seq<Frame>, own: map<nat, Use>, d: nat, pn: nat)
    requires HasTable(frames, own, d, pn)
    ensures Pte(frames, d, pn) == frames[TableOf(frames, d, pn)][pn % ENTRIES]
  {
  }

  /** Without a table at a, the pages that deallocuvm jumps over are not mapped. */
  lemma SkipIsEmpty(frames: seq<Frame>, frames0: seq<Frame>, own: map<nat, Use>, d: nat, start: nat, a: nat, end: nat,
                    top: nat)
    requires Inv(frames, own) && IsDir(own, d) && d < |frames| == |frames0| && a < KPAGES && frames[d] == frames0[d]
    requires Cleared(frames0, frames, d, start, a, end)
    requires start % ENTRIES == 0 || Contiguous(frames0, d, top)
    requires start % ENTRIES == 0 && a % ENTRIES != 0 ==> Present(frames0[d][a / ENTRIES])
    ensures HasTable(frames, own, d, a) || AbsentUpTo(frames, d, a, a + ENTRIES)
  {
    DirOwnsTables(frames, own, d);
    if !HasTable(frames, own, d, a) {
      assert Pte(frames, d, a) == 0;
      if start % ENTRIES == 0 {
        assert forall pn: nat | a <= pn < a + ENTRIES :: pn / ENTRIES == a / ENTRIES;
      } else {
        hide Pte;
        assert a >= top;
      }
    }
  }

  /** User pages of d left the record and their frames are free; the rest is as it was. */
  ghost predicate Shrunk(frames: seq<Frame>, own: map<nat, Use>, free: seq<nat>,
                         frames': seq<Frame>, own': map<nat, Use>, free': seq<nat>, d: nat)
  {
    && |frames'| == |frames|
    && (forall k | k in own' :: k in own && own'[k] == own[k])
    && (forall k | k in own && k !in own' :: own[k].Page? && own[k].dir == d)
    && (forall f :: f in free' <==> f in free || (f in own && f !in own'))
    && (forall k | k in own' && k < |frames| && !(own[k].Table? && own[k].dir == d) :: frames'[k] == frames[k])
  }

  lemma NotShrunk(frames: seq<Frame>, own: map<nat, Use>, free: seq<nat>, d: nat)
    ensures Shrunk(frames, own, free, frames, own, free, d)
  {
  }

  lemma ShrunkTwice(frames: seq<Frame>, own: map<nat, Use>, free: seq<nat>, frames1: seq<Frame>, own1: map<nat, Use>,
                    free1: seq<nat>, frames2: seq<Frame>, own2: map<nat, Use>, free2: seq<nat>, d: nat)
    requires Shrunk(frames, own, free, frames1, own1, free1, d) && Shrunk(frames1, own1, free1, frames2, own2, free2, d)
    ensures Shrunk(frames, own, free, frames2, own2, free2, d)
  {
  }

  lemma FreeStep(frames: seq<Frame>, own: map<nat, Use>, free: seq<nat>, d: nat, pn: nat)
    requires Inv(frames, own) && FreeOk(frames, free, own) && HasTable(frames, own, d, pn) && pn < KPAGES
             && Present(Pte(frames, d, pn))
    ensures var f := FrameOf(Pte(frames, d, pn));
      f < |frames| && f !in free && TableOf(frames, d, pn) != f && d != f
    ensures var f := FrameOf(Pte(frames, d, pn));
      var frames', own', free' := WithPte(frames[f := Fill(JUNK)], d, pn, 0), own - {f}, [f] + free;
      && Inv(frames', own') && FreeOk(frames', free', own') && IsDir(own', d)
      && OneSet(frames, frames', own, d, pn, 0) && Shrunk(frames, own, free, frames', own', free', d)
  {
    var f := FrameOf(Pte(frames, d, pn));
    Unmap(frames, own, d, pn);
    TableBelongs(frames, own, d, pn);
    var frames1 := frames[f := Fill(JUNK)];
    SameInv(frames, frames1, own);
    SamePte(frames, frames1, own, d, pn);
    Unmap(frames1, own, d, pn);
    EntriesAfter(frames1, own, d, pn, 0);
    var frames' := WithPte(frames1, d, pn, 0);
    forall e: nat, qn: nat | IsDir(own, e) && qn < PAGES && e < |frames|
      ensures Pte(frames', e, qn) == if e == d && qn == pn then 0 else Pte(frames, e, qn)
    {
      SamePte(frames, frames1, own, e, qn);
    }
    hide Pte, Inv;
  }

  /** d is a new address space made of frames of avail; nothing else has changed. */
  ghost predicate NewSpace(frames: seq<Frame>, own: map<nat, Use>, avail: set<nat>,
                           frames': seq<Frame>, own': map<nat, Use>, free': seq<nat>, d: nat)
  {
    && d !in own && IsDir(own', d) && d < |frames'|
    && Grew(avail, own, free', own', d) && Untouched(frames, frames', own, avail, d)
    && SamePtes(frames, frames', own)
  }

  lemma StartSpace(frames: seq<Frame>, own: map<nat, Use>, free: seq<nat>, free': seq<nat>, d: nat)
    requires Inv(frames, own) && FreeOk(frames, free, own) && free != [] && d == free[0] && free' == free[1..]
    ensures var frames', own' := frames[d := Fill(0)], own[d := Dir];
      && Inv(frames', own') && FreeOk(frames', free', own')
      && NewSpace(frames, own, SetOf(free), frames', own', free', d)
      && forall qn: nat | qn < PAGES :: Pte(frames', d, qn) == 0
  {
    var frames', own' := frames[d := Fill(0)], own[d := Dir];
    NewDir(frames, own, d);
    forall e: nat, qn: nat | IsDir(own, e) && qn < PAGES && e < |frames|
      ensures Pte(frames', e, qn) == Pte(frames, e, qn)
    {
      SamePte(frames, frames', own, e, qn);
    }
    hide Pte, Inv;
    TakeOne(own, free, free', own', d, d);
  }

  /** The lines of the table are in the kernel half and do not overlap. */
  ghost predicate KmapOk(kmap: seq<Kmap>)
  {
    && (forall i | 0 <= i < |kmap| :: KmapLine(kmap[i]))
    && (forall i, j | 0 <= i < j < |kmap| :: Apart(kmap[i], kmap[j]))
  }

  ghost predicate Apart(a: Kmap, b: Kmap)
  {
    a.virt + a.count <= b.virt || b.virt + b.count <= a.virt
  }

  /** The entry of page qn after the first n lines. */
  ghost function KernelPte(kmap: seq<Kmap>, n: nat, qn: nat): word
    requires KmapOk(kmap) && n <= |kmap|
  {
    if n == 0 then 0
    else
      var m := kmap[n - 1];
      if m.virt <= qn < m.virt + m.count then MakePte(m.phys + (qn - m.virt), m.perm) else KernelPte(kmap, n - 1, qn)
  }

  ghost predicate LineSet(frames: seq<Frame>, d: nat, m: Kmap)
  {
    && d < |frames| && KmapLine(m)
    && forall qn: nat | m.virt <= qn < m.virt + m.count :: LineMapped(Pte(frames, d, qn), m, qn - m.virt)
  }

  ghost predicate NoNewPage(own: map<nat, Use>, own': map<nat, Use>)
  {
    forall k | k in own' && k !in own :: !own'[k].Page?
  }

  /** The first n lines are in, and nothing else. */
  ghost predicate LinesDone(frames: seq<Frame>, d: nat, kmap: seq<Kmap>, n: nat)
  {
    d < |frames| && KmapOk(kmap) && n <= |kmap|
    && forall qn: nat | qn < PAGES :: Pte(frames, d, qn) == KernelPte(kmap, n, qn)
  }

  /** Page k of a line: at its frame, writable exactly if the line is, a user page only if the line
      says so. */
  ghost predicate LineMapped(w: word, m: Kmap, k: nat)
  {
    Present(w) && FrameOf(w) == m.phys + k && (Writable(w) <==> Writable(m.perm)) && (User(w) <==> User(m.perm))
  }

  /** Every page of every line is mapped in d, and nothing else of the kernel's half. */
  ghost predicate MapsKernel(frames: seq<Frame>, d: nat, kmap: seq<Kmap>)
  {
    && d < |frames| && KmapOk(kmap) && (forall i | 0 <= i < |kmap| :: LineSet(frames, d, kmap[i]))
    && (forall qn: nat | KPAGES <= qn < PAGES && (forall i | 0 <= i < |kmap| :: Outside(kmap[i], qn)) ::
          Pte(frames, d, qn) == 0)
  }

  ghost predicate Outside(m: Kmap, qn: nat)
  {
    !(m.virt <= qn < m.virt + m.count)
  }

  lemma {:induction false} LineEntry(kmap: seq<Kmap>, n: nat, i: nat, qn: nat)
    requires KmapOk(kmap) && i < n <= |kmap| && kmap[i].virt <= qn < kmap[i].virt + kmap[i].count
    ensures LineMapped(KernelPte(kmap, n, qn), kmap[i], qn - kmap[i].virt)
  {
    hide MakePte;
    if i < n - 1 {
      assert Apart(kmap[i], kmap[n - 1]);
      LineEntry(kmap, n - 1, i, qn);
    }
  }

  lemma AllLines(frames: seq<Frame>, d: nat, kmap: seq<Kmap>)
    requires LinesDone(frames, d, kmap, |kmap|)
    ensures MapsKernel(frames, d, kmap) && forall qn: nat | qn < KPAGES :: Pte(frames, d, qn) == 0
  {
    hide Pte, KernelPte, LineMapped;
    forall i, qn: nat | 0 <= i < |kmap| && kmap[i].virt <= qn < kmap[i].virt + kmap[i].count
      ensures LineMapped(Pte(frames, d, qn), kmap[i], qn - kmap[i].virt)
    {
      LineEntry(kmap, |kmap|, i, qn);
    }
    forall qn: nat | qn < PAGES && forall i | 0 <= i < |kmap| :: Outside(kmap[i], qn)
      ensures Pte(frames, d, qn) == 0
    {
      NotCovered(kmap, |kmap|, qn);
    }
  }

  /** The kmap of vm.c, in pages; the kernel's data starts at page `data`. */
  function KernelMap(data: nat): (r: seq<Kmap>)
    requires 0x80100 < data < 0x8e000
    ensures KmapOk(r)
  {
    [Kmap(0x80000, 0, 0x100, 2), Kmap(0x80100, 0x100, data - 0x80100, 0),
     Kmap(data, data - 0x80000, 0x8e000 - data, 2), Kmap(0xfe000, 0xfe000, 0x2000, 2)]
  }

  /** In a space with that map the user gets at no page of the kernel's half; the kernel reads its
      text and cannot write it; and it reads and writes its data, the I/O space and the devices. */
  lemma KernelProtected(frames: seq<Frame>, own: map<nat, Use>, d: nat, data: nat, qn: nat)
    requires Inv(frames, own) && IsDir(own, d) && 0x80100 < data < 0x8e000 && MapsKernel(frames, d, KernelMap(data))
    requires KPAGES <= qn < PAGES
    ensures !Allowed(frames, d, qn, true, false)
    ensures Allowed(frames, d, qn, false, false) <==> qn < 0x8e000 || 0xfe000 <= qn
    ensures Allowed(frames, d, qn, false, true) <==> qn < 0x80100 || data <= qn < 0x8e000 || 0xfe000 <= qn
    ensures qn < 0x8e000 ==> FrameOf(Pte(frames, d, qn)) == qn - KPAGES
  {
    hide Pte, Inv, Allowed;
    var kmap := KernelMap(data);
    AllowedByPte(frames, own, d, qn, true, false);
    AllowedByPte(frames, own, d, qn, false, false);
    AllowedByPte(frames, own, d, qn, false, true);
    if i :| 0 <= i < |kmap| && !Outside(kmap[i], qn) {
      assert LineSet(frames, d, kmap[i]);
    } else {
      assert Outside(kmap[0], qn) && Outside(kmap[1], qn) && Outside(kmap[2], qn) && Outside(kmap[3], qn);
    }
  }

  lemma NoLines(kmap: seq<Kmap>)
    requires KmapOk(kmap)
    ensures forall qn: nat :: KernelPte(kmap, 0, qn) == 0
  {
  }

  lemma {:induction false} NotCovered(kmap: seq<Kmap>, n: nat, qn: nat)
    requires KmapOk(kmap) && n <= |kmap|
             && forall i | 0 <= i < n :: Outside(kmap[i], qn)
    ensures KernelPte(kmap, n, qn) == 0
  {
    if n > 0 {
      NotCovered(kmap, n - 1, qn);
    }
  }

  lemma LineIsNew(kmap: seq<Kmap>, i: nat)
    requires KmapOk(kmap) && i < |kmap|
    ensures forall qn: nat | kmap[i].virt <= qn < kmap[i].virt + kmap[i].count :: KernelPte(kmap, i, qn) == 0
  {
    forall qn: nat | kmap[i].virt <= qn < kmap[i].virt + kmap[i].count
      ensures KernelPte(kmap, i, qn) == 0
    {
      forall j | 0 <= j < i
        ensures Outside(kmap[j], qn)
      {
        assert Apart(kmap[j], kmap[i]);
      }
      NotCovered(kmap, i, qn);
    }
  }

  lemma NextLine(frames: seq<Frame>, own: map<nat, Use>, avail: set<nat>, frames1: seq<Frame>, own1: map<nat, Use>,
                 free1: seq<nat>,
                 frames2: seq<Frame>, own2: map<nat, Use>, free2: seq<nat>, d: nat, kmap: seq<Kmap>, i: nat, ok: bool)
    requires KmapOk(kmap) && i < |kmap| && NewSpace(frames, own, avail, frames1, own1, free1, d) && Inv(frames1, own1)
    requires Grew(SetOf(free1), own1, free2, own2, d) && Untouched(frames1, frames2, own1, SetOf(free1), d)
             && IsDir(own2, d)
    requires LinesDone(frames1, d, kmap, i)
    requires ok ==> RangeSet(frames1, frames2, own1, d, kmap[i], kmap[i].count)
    ensures NewSpace(frames, own, avail, frames2, own2, free2, d)
    ensures ok ==> LinesDone(frames2, d, kmap, i + 1)
  {
    GrewTwice(avail, own, free1, own1, free2, own2, d);
    UntouchedTwice(frames, own, avail, frames1, own1, free1, frames2, d);
    hide Pte, Inv;
    forall e: nat, qn: nat | IsDir(own, e) && qn < PAGES && e < |frames|
      ensures Pte(frames2, e, qn) == Pte(frames, e, qn)
    {
      OldPte(frames1, own1, frames2, free1, d, e, qn);
    }
  }

  /** A space that was there before d maps what it mapped. */
  lemma OldPte(frames1: seq<Frame>, own1: map<nat, Use>, frames2: seq<Frame>, free1: seq<nat>, d: nat, e: nat, qn: nat)
    requires Inv(frames1, own1) && Untouched(frames1, frames2, own1, SetOf(free1), d)
    requires IsDir(own1, e) && e != d && qn < PAGES && forall k | k in own1 :: k !in free1
    ensures e < |frames1| && Pte(frames2, e, qn) == Pte(frames1, e, qn)
  {
    assert UseRight(frames1, own1, e);
    assert TablesOwned(frames1, own1, e);
    if Present(frames1[e][qn / ENTRIES]) {
      assert UseRight(frames1, own1, FrameOf(frames1[e][qn / ENTRIES]));
    }
  }

  ghost predicate KmapLine(m: Kmap)
  {
    KPAGES <= m.virt && 1 <= m.count && m.virt + m.count <= PAGES && m.phys + m.count <= TWO32 / PGSIZE
    && m.perm < PGSIZE
  }

  /** The first n pages of m are mapped in d; every other entry is as it was. */
  ghost predicate RangeSet(frames: seq<Frame>, frames': seq<Frame>, own: map<nat, Use>, d: nat, m: Kmap, n: nat)
    requires KmapLine(m) && n <= m.count
  {
    |frames'| == |frames| && forall e: nat, qn: nat | IsDir(own, e) && qn < PAGES && e < |frames| ::
      Pte(frames', e, qn) == if e == d && m.virt <= qn < m.virt + n then MakePte(m.phys + (qn - m.virt), m.perm)
        else Pte(frames, e, qn)
  }

  lemma RangeStep(frames: seq<Frame>, frames1: seq<Frame>, frames2: seq<Frame>, own: map<nat, Use>,
                  own1: map<nat, Use>, d: nat, m: Kmap, i: nat)
    requires KmapLine(m) && i < m.count && RangeSet(frames, frames1, own, d, m, i)
    requires OneSet(frames1, frames2, own1, d, m.virt + i, MakePte(m.phys + i, m.perm))
    requires forall k | k in own :: k in own1 && own1[k] == own[k]
    ensures RangeSet(frames, frames2, own, d, m, i + 1)
  {
    hide Pte, MakePte;
  }

  lemma UntouchedTwice(frames: seq<Frame>, own: map<nat, Use>, avail: set<nat>, frames1: seq<Frame>,
                       own1: map<nat, Use>, free1: seq<nat>, frames2: seq<Frame>, d: nat)
    requires Untouched(frames, frames1, own, avail, d) && Untouched(frames1, frames2, own1, SetOf(free1), d)
    requires Grew(avail, own, free1, own1, d)
    ensures Untouched(frames, frames2, own, avail, d)
  {
    forall k | 0 <= k < |frames| && k !in avail && !(k in own && !own[k].Page? && Belongs(own[k], k, d))
      ensures frames2[k] == frames[k]
    {
      assert k !in SetOf(free1);
    }
  }

  lemma MapUserStep(frames: seq<Frame>, own: map<nat, Use>, free: seq<nat>, frames1: seq<Frame>, own1: map<nat, Use>,
                    free1: seq<nat>, d: nat, pn: nat, f: nat, w: word)
    requires Inv(frames1, own1) && FreeOk(frames1, free1, own1) && HasTable(frames1, own1, d, pn) && pn < KPAGES
    requires Present(w) && FrameOf(w) == f < |frames1| && f !in own && f !in free && !Present(Pte(frames1, d, pn))
    requires SamePtes(frames, frames1, own) && Untouched(frames, frames1, own, SetOf(free), d)
             && Grew(SetOf(free), own, free1, own1, d)
    ensures var frames', own' := WithPte(frames1, d, pn, w), own1[f := Page(d, pn)];
      && Inv(frames', own') && FreeOk(frames', free1, own')
      && OneSet(frames, frames', own, d, pn, w) && Untouched(frames, frames', own, SetOf(free), d)
      && Grew(SetOf(free) + {f}, own, free1, own', d)
  {
    hide Pte, Inv, WithPte;
    assert f !in own1 && f !in free1;
    MapUser(frames1, own1, d, pn, w);
    EntriesAfter(frames1, own1, d, pn, w);
    TableBelongs(frames1, own1, d, pn);
    OnlyTable(frames, own, SetOf(free), frames1, own1, free1, d, pn, w);
  }

  lemma TableBelongs(frames: seq<Frame>, own: map<nat, Use>, d: nat, pn: nat)
    requires Inv(frames, own) && HasTable(frames, own, d, pn)
    ensures TableOf(frames, d, pn) in own && own[TableOf(frames, d, pn)] == Table(d, pn / ENTRIES)
  {
    assert TablesOwned(frames, own, d);
  }

  /** Writing an entry touches one table of d. */
  lemma OnlyTable(frames: seq<Frame>, own: map<nat, Use>, avail: set<nat>, frames1: seq<Frame>, own1: map<nat, Use>,
                  free1: seq<nat>, d: nat, pn: nat, w: word)
    requires d < |frames1| && pn < PAGES && TableOf(frames1, d, pn) < |frames1|
    requires TableOf(frames1, d, pn) in own1 && own1[TableOf(frames1, d, pn)] == Table(d, pn / ENTRIES)
    requires Untouched(frames, frames1, own, avail, d) && Grew(avail, own, free1, own1, d)
    ensures Untouched(frames, WithPte(frames1, d, pn, w), own, avail, d)
  {
  }

  lemma MapKernelStep(frames: seq<Frame>, own: map<nat, Use>, free: seq<nat>, frames1: seq<Frame>,
                      own1: map<nat, Use>, free1: seq<nat>, d: nat, pn: nat, w: word)
    requires Inv(frames1, own1) && FreeOk(frames1, free1, own1) && HasTable(frames1, own1, d, pn) && KPAGES <= pn
    requires SamePtes(frames, frames1, own) && Untouched(frames, frames1, own, SetOf(free), d)
             && Grew(SetOf(free), own, free1, own1, d)
    ensures var frames' := WithPte(frames1, d, pn, w);
      && Inv(frames', own1) && FreeOk(frames', free1, own1)
      && OneSet(frames, frames', own, d, pn, w) && Untouched(frames, frames', own, SetOf(free), d)
  {
    MapKernel(frames1, own1, d, pn, w);
    EntriesAfter(frames1, own1, d, pn, w);
    TableBelongs(frames1, own1, d, pn);
    hide Pte, Inv, HasTable;
    OnlyTable(frames, own, SetOf(free), frames1, own1, free1, d, pn, w);
  }

  lemma DirOwnsTables(frames: seq<Frame>, own: map<nat, Use>, d: nat)
    requires Inv(frames, own) && IsDir(own, d)
    ensures d < |frames| && forall i | 0 <= i < ENTRIES && Present(frames[d][i]) :: FrameOf(frames[d][i]) < |frames|
  {
    assert TablesOwned(frames, own, d);
    forall i | 0 <= i < ENTRIES && Present(frames[d][i])
      ensures FrameOf(frames[d][i]) < |frames|
    {
      assert UseRight(frames, own, FrameOf(frames[d][i]));
    }
  }

  lemma TakeTable(frames: seq<Frame>, own: map<nat, Use>, free: seq<nat>, free': seq<nat>, d: nat, pn: nat, t: nat)
    requires Inv(frames, own) && FreeOk(frames, free, own) && IsDir(own, d) && d < |frames| && pn < PAGES
             && !Present(frames[d][pn / ENTRIES])
    requires free != [] && t == free[0] && free' == free[1..]
    ensures var frames', own' := WithTable(frames, d, pn / ENTRIES, t), own[t := Table(d, pn / ENTRIES)];
      && Inv(frames', own') && FreeOk(frames', free', own') && HasTable(frames', own', d, pn)
      && SamePtes(frames, frames', own) && Untouched(frames, frames', own, SetOf(free), d)
      && Grew(SetOf(free), own, free', own', d)
  {
    var frames', own' := WithTable(frames, d, pn / ENTRIES, t), own[t := Table(d, pn / ENTRIES)];
    NewTable(frames, own, d, pn / ENTRIES, t);
    forall e: nat, qn: nat | IsDir(own, e) && qn < PAGES && e < |frames|
      ensures Pte(frames', e, qn) == Pte(frames, e, qn)
    {
      NewTablePte(frames, own, d, pn / ENTRIES, t, e, qn);
    }
    hide Pte, Inv;
    TakeOne(own, free, free', own', d, t);
  }

  lemma TakeOne(own: map<nat, Use>, free: seq<nat>, free': seq<nat>, own': map<nat, Use>, d: nat, t: nat)
    requires free != [] && t == free[0] && free' == free[1..] && own'.Keys == own.Keys + {t} && Belongs(own'[t], t, d)
    requires forall k | k in own :: own'[k] == own[k]
    requires forall i | 0 <= i < |free| :: free[i] !in own
    requires forall i, j | 0 <= i < j < |free| :: free[i] != free[j]
    ensures Grew(SetOf(free), own, free', own', d)
  {
    forall f
      ensures f in free' <==> f in SetOf(free) && f !in own'
    {
      if f in free && f != t {
        var i :| 0 <= i < |free| && free[i] == f;
        assert free'[i - 1] == f;
      }
    }
  }
}
