/** Two-level page tables in physical frames (mmu.h, vm.c), and who owns each frame: a page
    directory, a page table of a directory, or a user page of a directory. */
module PageTables {
  import opened Blocks

  const ENTRIES: nat := 1024         // entries per directory and per table
  const PGSIZE: nat := 4096
  const KPAGES: nat := 524288        // user pages: KERNBASE / PGSIZE
  const PAGES: nat := 1048576        // pages of the address space

  type Frame = f: seq<word> | |f| == ENTRIES witness Fill(0)

  function Fill(w: word): (r: seq<word>)
    ensures |r| == ENTRIES && forall i | 0 <= i < ENTRIES :: r[i] == w
  {
    Repeat(w, ENTRIES)
  }

  function Repeat(w: word, n: nat): (r: seq<word>)
    ensures |r| == n && forall i | 0 <= i < n :: r[i] == w
  {
    if n == 0 then [] else Repeat(w, n - 1) + [w]
  }

  datatype Use = Dir | Table(dir: nat, i: nat) | Page(dir: nat, pn: nat)

  /** PTE_P, PTE_ADDR as a frame number, PTE_FLAGS. */
  predicate Present(w: word)
  {
    w % 2 == 1
  }

  function FrameOf(w: word): nat
  {
    w / PGSIZE
  }

  function Flags(w: word): nat
  {
    w % PGSIZE
  }

  /** PTE_W and PTE_U. */
  predicate Writable(w: nat)
  {
    w / 2 % 2 == 1
  }

  predicate User(w: nat)
  {
    w / 4 % 2 == 1
  }

  lemma PteBits(frame: nat, q: nat)
    requires frame < TWO32 / PGSIZE && q < PGSIZE / 2
    ensures var w := frame * PGSIZE + q * 2 + 1;
      && w < TWO32 && w % 2 == 1 && w / PGSIZE == frame && w % PGSIZE == q * 2 + 1
      && w / 2 % 2 == q % 2 && w / 4 % 2 == q / 2 % 2
  {
    var w := frame * PGSIZE + q * 2 + 1;
    assert w / 2 == 2048 * frame + q && w / 4 == 1024 * frame + q / 2;
    Even(1024 * frame, q);
    Even(512 * frame, q / 2);
  }

  lemma Even(k: nat, q: nat)
    ensures (2 * k + q) % 2 == q % 2
  {
  }

  lemma PermBits(perm: nat)
    ensures perm / 4 == perm / 2 / 2 && (perm / 2 * 2 + 1) / 2 == perm / 2
    ensures perm % 2 == 1 ==> perm / 2 * 2 + 1 == perm
  {
  }

  /** `pa | perm | PTE_P` for a page-aligned pa: present, at that frame, and with every other flag that
      perm has and no more. */
  function MakePte(frame: nat, perm: nat): (r: word)
    requires frame < TWO32 / PGSIZE && perm < PGSIZE
    ensures Present(r) && FrameOf(r) == frame && Flags(r) / 2 == perm / 2
    ensures (Writable(r) <==> Writable(perm)) && (User(r) <==> User(perm)) && (Present(perm) ==> Flags(r) == perm)
  {
    PteBits(frame, perm / 2);
    PermBits(perm);
    frame * PGSIZE + perm / 2 * 2 + 1
  }

  /** The page table entry of page pn, 0 where the directory has no table. */
  function Pte(frames: seq<Frame>, d: nat, pn: nat): word
    requires d < |frames| && pn < PAGES
  {
    var e := frames[d][pn / ENTRIES];
    if Present(e) && FrameOf(e) < |frames| then frames[FrameOf(e)][pn % ENTRIES] else 0
  }

  // ---------------------------------------------------------------- ownership

  ghost predicate IsDir(own: map<nat, Use>, d: nat)
  {
    d in own && own[d].Dir?
  }

  ghost predicate UseRight(frames: seq<Frame>, own: map<nat, Use>, f: nat)
    requires f in own
  {
    && f < |frames|
    && (own[f].Table? ==>
          var d := own[f].dir;
          IsDir(own, d) && d < |frames| && own[f].i < ENTRIES
          && Present(frames[d][own[f].i]) && FrameOf(frames[d][own[f].i]) == f)
    && (own[f].Page? ==>
          var d := own[f].dir;
          IsDir(own, d) && d < |frames| && own[f].pn < KPAGES
          && Present(Pte(frames, d, own[f].pn)) && FrameOf(Pte(frames, d, own[f].pn)) == f)
  }

  ghost predicate TablesOwned(frames: seq<Frame>, own: map<nat, Use>, d: nat)
  {
    d < |frames| && forall i | 0 <= i < ENTRIES && Present(frames[d][i]) ::
      FrameOf(frames[d][i]) in own && own[FrameOf(frames[d][i])] == Table(d, i) && Open(frames[d][i])
  }

  /** A directory entry leaves the permissions to the entries of its table. */
  ghost predicate Open(w: word)
  {
    Writable(w) && User(w)
  }

  ghost predicate PagesOwned(frames: seq<Frame>, own: map<nat, Use>, d: nat)
  {
    d < |frames| && forall pn | 0 <= pn < KPAGES && Present(Pte(frames, d, pn)) ::
      FrameOf(Pte(frames, d, pn)) in own && own[FrameOf(Pte(frames, d, pn))] == Page(d, pn)
  }

  /** Every owned frame has the use it is recorded for, and every present directory entry and user
      page entry names a frame recorded for it: no frame has two uses. */
  ghost predicate Inv(frames: seq<Frame>, own: map<nat, Use>)
  {
    && |frames| <= TWO32 / PGSIZE
    && (forall f | f in own :: UseRight(frames, own, f))
    && (forall d | IsDir(own, d) :: TablesOwned(frames, own, d) && PagesOwned(frames, own, d))
  }

  /** What the hardware lets through: both entries are present and, for an access by the user or a
      write, both allow it. */
  predicate Allowed(frames: seq<Frame>, d: nat, pn: nat, user: bool, write: bool)
    requires d < |frames| && pn < PAGES
  {
    var e := frames[d][pn / ENTRIES];
    && Present(e) && FrameOf(e) < |frames|
    && var w := frames[FrameOf(e)][pn % ENTRIES];
    Present(w) && (user ==> User(e) && User(w)) && (write ==> Writable(e) && Writable(w))
  }

  /** The permissions of a page are those of its table entry. */
  lemma AllowedByPte(frames: seq<Frame>, own: map<nat, Use>, d: nat, pn: nat, user: bool, write: bool)
    requires Inv(frames, own) && IsDir(own, d) && d < |frames| && pn < PAGES
    ensures var w := Pte(frames, d, pn);
      Allowed(frames, d, pn, user, write) <==> Present(w) && (user ==> User(w)) && (write ==> Writable(w))
  {
    assert TablesOwned(frames, own, d);
  }

  // ---------------------------------------------------------------- writes outside the tables

  /** Directories and tables are as they were. */
  ghost predicate SameTables(frames: seq<Frame>, frames': seq<Frame>, own: map<nat, Use>)
  {
    |frames'| == |frames| && forall k | k in own && !own[k].Page? && k < |frames| :: frames'[k] == frames[k]
  }

  lemma SamePte(frames: seq<Frame>, frames': seq<Frame>, own: map<nat, Use>, d: nat, pn: nat)
    requires Inv(frames, own) && SameTables(frames, frames', own) && IsDir(own, d) && pn < PAGES
    ensures d < |frames| && Pte(frames', d, pn) == Pte(frames, d, pn)
  {
    assert TablesOwned(frames, own, d);
  }

  lemma SameInv(frames: seq<Frame>, frames': seq<Frame>, own: map<nat, Use>)
    requires Inv(frames, own) && SameTables(frames, frames', own)
    ensures Inv(frames', own)
  {
    forall d: nat, pn: nat | IsDir(own, d) && pn < PAGES
      ensures d < |frames| && Pte(frames', d, pn) == Pte(frames, d, pn)
    {
      SamePte(frames, frames', own, d, pn);
    }
    hide Pte;
    forall f | f in own
      ensures UseRight(frames', own, f)
    {
      assert UseRight(frames, own, f);
    }
    forall d | IsDir(own, d)
      ensures TablesOwned(frames', own, d) && PagesOwned(frames', own, d)
    {
      assert TablesOwned(frames, own, d) && PagesOwned(frames, own, d);
    }
  }

  // ---------------------------------------------------------------- a new directory, a new table

  ghost predicate NoEntries(frames: seq<Frame>, d: nat)
  {
    d < |frames| && forall pn | 0 <= pn < PAGES :: Pte(frames, d, pn) == 0
  }

  lemma NewDir(frames: seq<Frame>, own: map<nat, Use>, d: nat)
    requires Inv(frames, own) && d < |frames| && d !in own
    ensures Inv(frames[d := Fill(0)], own[d := Dir])
    ensures NoEntries(frames[d := Fill(0)], d)
  {
    var frames', own' := frames[d := Fill(0)], own[d := Dir];
    SameInv(frames, frames', own);
    forall f | f in own'
      ensures UseRight(frames', own', f)
    {
      if f != d {
        assert UseRight(frames', own, f);
      }
    }
    forall e | IsDir(own', e)
      ensures TablesOwned(frames', own', e) && PagesOwned(frames', own', e)
    {
      if e != d {
        assert IsDir(own, e);
      }
    }
  }

  /** walkpgdir with alloc: a zeroed table, entered in the directory. */
  function WithTable(frames: seq<Frame>, d: nat, i: nat, t: nat): seq<Frame>
    requires d < |frames| <= TWO32 / PGSIZE && t < |frames| && i < ENTRIES
  {
    var cleared := frames[t := Fill(0)];
    cleared[d := cleared[d][i := MakePte(t, 7)]]
  }

  lemma NewTablePte(frames: seq<Frame>, own: map<nat, Use>, d: nat, i: nat, t: nat, e: nat, pn: nat)
    requires Inv(frames, own) && IsDir(own, d) && d < |frames| && i < ENTRIES && !Present(frames[d][i])
             && t < |frames| && t !in own
    requires IsDir(own, e) && pn < PAGES
    ensures e < |frames| && Pte(WithTable(frames, d, i, t), e, pn) == Pte(frames, e, pn)
  {
    assert TablesOwned(frames, own, e);
  }

  lemma NewTable(frames: seq<Frame>, own: map<nat, Use>, d: nat, i: nat, t: nat)
    requires Inv(frames, own) && IsDir(own, d) && d < |frames| && i < ENTRIES && !Present(frames[d][i])
             && t < |frames| && t !in own
    ensures Inv(WithTable(frames, d, i, t), own[t := Table(d, i)])
  {
    var frames', own' := WithTable(frames, d, i, t), own[t := Table(d, i)];
    forall e: nat, pn: nat | IsDir(own, e) && pn < PAGES
      ensures e < |frames| && Pte(frames', e, pn) == Pte(frames, e, pn)
    {
      NewTablePte(frames, own, d, i, t, e, pn);
    }
    hide Pte;
    forall f | f in own'
      ensures UseRight(frames', own', f)
    {
      if f != t {
        assert UseRight(frames, own, f);
      }
    }
    forall e | IsDir(own', e)
      ensures TablesOwned(frames', own', e) && PagesOwned(frames', own', e)
    {
      assert TablesOwned(frames, own, e) && PagesOwned(frames, own, e);
    }
  }

  // ---------------------------------------------------------------- writing a page table entry

  /** The table of page pn in d. */
  function TableOf(frames: seq<Frame>, d: nat, pn: nat): nat
    requires d < |frames| && pn < PAGES
  {
    FrameOf(frames[d][pn / ENTRIES])
  }

  ghost predicate HasTable(frames: seq<Frame>, own: map<nat, Use>, d: nat, pn: nat)
  {
    && d < |frames| && pn < PAGES && IsDir(own, d) && Present(frames[d][pn / ENTRIES])
    && TableOf(frames, d, pn) < |frames|
  }

  function WithPte(frames: seq<Frame>, d: nat, pn: nat, w: word): seq<Frame>
    requires d < |frames| && pn < PAGES && TableOf(frames, d, pn) < |frames|
  {
    var t := TableOf(frames, d, pn);
    frames[t := frames[t][pn % ENTRIES := w]]
  }

  /** Writing an entry changes that entry of that directory and no other. */
  lemma PteAfter(frames: seq<Frame>, own: map<nat, Use>, d: nat, pn: nat, w: word, e: nat, qn: nat)
    requires Inv(frames, own) && HasTable(frames, own, d, pn) && IsDir(own, e) && qn < PAGES
    ensures e < |frames| && Pte(WithPte(frames, d, pn, w), e, qn) == if e == d && qn == pn then w
            else Pte(frames, e, qn)
  {
    assert TablesOwned(frames, own, d) && TablesOwned(frames, own, e);
  }

  lemma DirsAfter(frames: seq<Frame>, own: map<nat, Use>, d: nat, pn: nat, w: word, e: nat)
    requires Inv(frames, own) && HasTable(frames, own, d, pn) && IsDir(own, e)
    ensures e < |frames| && WithPte(frames, d, pn, w)[e] == frames[e]
  {
    assert TablesOwned(frames, own, d);
    assert UseRight(frames, own, e);
  }

  /** Mapping a user page to a frame that had no use. */
  lemma MapUser(frames: seq<Frame>, own: map<nat, Use>, d: nat, pn: nat, w: word)
    requires Inv(frames, own) && HasTable(frames, own, d, pn) && pn < KPAGES
    requires Present(w) && FrameOf(w) < |frames| && FrameOf(w) !in own && !Present(Pte(frames, d, pn))
    ensures Inv(WithPte(frames, d, pn, w), own[FrameOf(w) := Page(d, pn)])
  {
    var frames', own' := WithPte(frames, d, pn, w), own[FrameOf(w) := Page(d, pn)];
    EntriesAfter(frames, own, d, pn, w);
    hide Pte, WithPte;
    forall f | f in own'
      ensures UseRight(frames', own', f)
    {
      if f != FrameOf(w) {
        assert UseRight(frames, own, f);
      }
    }
    forall e | IsDir(own', e)
      ensures TablesOwned(frames', own', e) && PagesOwned(frames', own', e)
    {
      assert TablesOwned(frames, own, e) && PagesOwned(frames, own, e);
    }
  }

  lemma EntriesAfter(frames: seq<Frame>, own: map<nat, Use>, d: nat, pn: nat, w: word)
    requires Inv(frames, own) && HasTable(frames, own, d, pn)
    ensures |WithPte(frames, d, pn, w)| == |frames|
    ensures forall e: nat, qn: nat | IsDir(own, e) && qn < PAGES ::
      e < |frames| && Pte(WithPte(frames, d, pn, w), e, qn) == if e == d && qn == pn then w else Pte(frames, e, qn)
    ensures forall e: nat | IsDir(own, e) :: e < |frames| && WithPte(frames, d, pn, w)[e] == frames[e]
  {
    forall e: nat, qn: nat | IsDir(own, e) && qn < PAGES
      ensures e < |frames| && Pte(WithPte(frames, d, pn, w), e, qn) == if e == d && qn == pn then w
              else Pte(frames, e, qn)
    {
      PteAfter(frames, own, d, pn, w, e, qn);
    }
    forall e: nat | IsDir(own, e)
      ensures e < |frames| && WithPte(frames, d, pn, w)[e] == frames[e]
    {
      DirsAfter(frames, own, d, pn, w, e);
    }
  }

  /** Mapping a kernel page gives no frame a use. */
  lemma MapKernel(frames: seq<Frame>, own: map<nat, Use>, d: nat, pn: nat, w: word)
    requires Inv(frames, own) && HasTable(frames, own, d, pn) && KPAGES <= pn
    ensures Inv(WithPte(frames, d, pn, w), own)
  {
    var frames' := WithPte(frames, d, pn, w);
    EntriesAfter(frames, own, d, pn, w);
    hide Pte, WithPte;
    forall f | f in own
      ensures UseRight(frames', own, f)
    {
      assert UseRight(frames, own, f);
    }
    forall e | IsDir(own, e)
      ensures TablesOwned(frames', own, e) && PagesOwned(frames', own, e)
    {
      assert TablesOwned(frames, own, e) && PagesOwned(frames, own, e);
    }
  }

  /** Unmapping a user page takes its frame out of use. */
  lemma Unmap(frames: seq<Frame>, own: map<nat, Use>, d: nat, pn: nat)
    requires Inv(frames, own) && HasTable(frames, own, d, pn) && pn < KPAGES && Present(Pte(frames, d, pn))
    ensures var f := FrameOf(Pte(frames, d, pn)); f in own && own[f] == Page(d, pn) && f < |frames|
    ensures Inv(WithPte(frames, d, pn, 0), own - {FrameOf(Pte(frames, d, pn))})
  {
    assert PagesOwned(frames, own, d);
    var g := FrameOf(Pte(frames, d, pn));
    var frames', own' := WithPte(frames, d, pn, 0), own - {g};
    EntriesAfter(frames, own, d, pn, 0);
    assert UseRight(frames, own, g);
    hide Pte, WithPte;
    forall f | f in own'
      ensures UseRight(frames', own', f)
    {
      assert UseRight(frames, own, f);
    }
    forall e | IsDir(own', e)
      ensures TablesOwned(frames', own', e) && PagesOwned(frames', own', e)
    {
      assert TablesOwned(frames, own, e) && PagesOwned(frames, own, e);
    }
  }

  // ---------------------------------------------------------------- dropping an address space

  ghost predicate Belongs(u: Use, f: nat, d: nat)
  {
    match u
    case Dir => f == d
    case Table(e, _) => e == d
    case Page(e, _) => e == d
  }

  ghost function Without(own: map<nat, Use>, d: nat): map<nat, Use>
  {
    map f | f in own && !Belongs(own[f], f, d) :: own[f]
  }

  lemma DropDir(frames: seq<Frame>, own: map<nat, Use>, d: nat)
    requires Inv(frames, own) && IsDir(own, d)
    ensures Inv(frames, Without(own, d))
  {
    var own' := Without(own, d);
    hide Pte;
    forall f | f in own'
      ensures UseRight(frames, own', f)
    {
      assert UseRight(frames, own, f);
    }
    forall e | IsDir(own', e)
      ensures TablesOwned(frames, own', e) && PagesOwned(frames, own', e)
    {
      assert TablesOwned(frames, own, e) && PagesOwned(frames, own, e);
    }
  }
}
