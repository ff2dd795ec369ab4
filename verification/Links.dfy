/** Link counts (sysfile.c): what link, unlink, create and the freeing of an inode do to the inodes
    and the directories, and the invariant they keep. A directory is the list of the inode numbers
    in its entries, 0 for a free entry; entry 0 is "." and entry 1 is "..". A directory is linked
    while its count is not zero; an unlinked one may live on as somebody's working directory. */
module Links {
  import opened Ownership

  type Dirs = map<nat, seq<nat>>

  datatype Home = Home(dir: nat, at: nat)

  ghost predicate Linked(mem: seq<Inode>, i: nat)
  {
    i < |mem| && mem[i].nlink != 0
  }

  /** Entry j of linked directory d, not its ".", names inode i. */
  ghost predicate Names(mem: seq<Inode>, dirs: Dirs, d: nat, j: nat, i: nat)
  {
    d in dirs && Linked(mem, d) && 1 <= j < |dirs[d]| && dirs[d][j] == i
  }

  ghost function Naming(mem: seq<Inode>, dirs: Dirs, i: nat): set<Home>
  {
    set d, j | d in dirs && 1 <= j < |dirs[d]| && Names(mem, dirs, d, j, i) :: Home(d, j)
  }

  ghost predicate Shaped(mem: seq<Inode>, dirs: Dirs)
  {
    && (forall d | d in dirs ::
          d < |mem| && mem[d].kind == T_DIR && |dirs[d]| >= 2 && dirs[d][0] == d && dirs[d][1] < |mem|)
    && (forall d | 0 <= d < |mem| && mem[d].kind == T_DIR :: d in dirs)
    && (forall d | d in dirs && mem[d].nlink == 0 :: Empty(dirs[d]))
    && (forall i | 0 <= i < |mem| && mem[i].kind == 0 :: mem[i].nlink == 0)
    && 0 !in dirs
  }

  /** What isdirempty tests: nothing after "." and "..". */
  ghost predicate Empty(entries: seq<nat>)
  {
    forall j | 2 <= j < |entries| :: entries[j] == 0
  }

  /** nlink is the number of entries that name the inode, and what is named is in use. */
  ghost predicate Counted(mem: seq<Inode>, dirs: Dirs)
  {
    && (forall i | 1 <= i < |mem| :: mem[i].nlink == |Naming(mem, dirs, i)|)
    && (forall d: nat, j: nat, i: nat | Names(mem, dirs, d, j, i) && i != 0 :: i < |mem| && mem[i].kind != 0)
  }

  /** Directory d is named once, from the directory its ".." names, one level up. */
  ghost predicate HomeOk(mem: seq<Inode>, dirs: Dirs, home: map<nat, Home>, depth: map<nat, nat>, d: nat)
  {
    && d in home && d in depth
    && var h := home[d];
    && h.at >= 2 && Names(mem, dirs, h.dir, h.at, d) && Names(mem, dirs, d, 1, h.dir)
    && h.dir in depth && depth[d] == depth[h.dir] + 1
  }

  /** The linked directories are a tree with ROOTINO at its root. */
  ghost predicate Rooted(mem: seq<Inode>, dirs: Dirs, home: map<nat, Home>, depth: map<nat, nat>)
  {
    && ROOTINO in depth && Names(mem, dirs, ROOTINO, 1, ROOTINO)
    && (forall d | d in dirs && Linked(mem, d) && d != ROOTINO :: HomeOk(mem, dirs, home, depth, d))
    && (forall p: nat, j: nat, d: nat | Names(mem, dirs, p, j, d) && j >= 2 && d in dirs ::
          d != ROOTINO && d in home && home[d] == Home(p, j))
  }

  ghost predicate LinkInv(mem: seq<Inode>, dirs: Dirs, home: map<nat, Home>, depth: map<nat, nat>)
  {
    Shaped(mem, dirs) && Counted(mem, dirs) && Rooted(mem, dirs, home, depth)
  }

  // ---------------------------------------------------------------- what it means

  /** Following ".." from any linked directory reaches the root. */
  ghost function Up(dirs: Dirs, d: nat, steps: nat): nat
    decreases steps
  {
    if steps == 0 then d else if d in dirs && |dirs[d]| >= 2 then Up(dirs, dirs[d][1], steps - 1) else d
  }

  ghost predicate ReachesRoot(dirs: Dirs, d: nat)
  {
    exists n :: 0 <= n && Up(dirs, d, n) == ROOTINO
  }

  lemma {:induction false} UpReachesRoot(mem: seq<Inode>, dirs: Dirs, home: map<nat, Home>, depth: map<nat, nat>,
                                         d: nat)
    requires LinkInv(mem, dirs, home, depth) && d in dirs && Linked(mem, d)
    ensures ReachesRoot(dirs, d)
    decreases if d in depth then depth[d] else 0
  {
    hide Counted;
    if d == ROOTINO {
      assert Up(dirs, d, 0) == ROOTINO;
    } else {
      assert HomeOk(mem, dirs, home, depth, d);
      var p := home[d].dir;
      UpReachesRoot(mem, dirs, home, depth, p);
      var n :| 0 <= n && Up(dirs, p, n) == ROOTINO;
      assert Up(dirs, d, n + 1) == ROOTINO;
    }
  }

  /** A linked directory names only what has links. */
  lemma NamedIsLinked(mem: seq<Inode>, dirs: Dirs, d: nat, j: nat, i: nat)
    requires Shaped(mem, dirs) && Counted(mem, dirs) && Names(mem, dirs, d, j, i) && i != 0
    ensures Linked(mem, i)
  {
    assert Home(d, j) in Naming(mem, dirs, i);
  }

  // ---------------------------------------------------------------- the operations

  /** Entry j of directory d holds i; j may be one past the end. */
  ghost function WithEntry(dirs: Dirs, d: nat, j: nat, i: nat): Dirs
    requires d in dirs && j <= |dirs[d]|
  {
    dirs[d := if j < |dirs[d]| then dirs[d][j := i] else dirs[d] + [i]]
  }

  function WithLinks(mem: seq<Inode>, i: nat, n: half): seq<Inode>
    requires i < |mem|
  {
    mem[i := mem[i].(nlink := n)]
  }

  /** The same directories are linked before and after. */
  ghost predicate SameLinked(mem: seq<Inode>, mem': seq<Inode>, dirs: Dirs)
  {
    forall d | d in dirs :: Linked(mem', d) == Linked(mem, d)
  }

  /** Writing one entry of a linked directory changes what that entry names and nothing else. */
  lemma NamesAfter(mem: seq<Inode>, mem': seq<Inode>, dirs: Dirs, dp: nat, at: nat, to: nat, d: nat, j: nat, i: nat)
    requires SameLinked(mem, mem', dirs) && dp in dirs && 1 <= at <= |dirs[dp]|
    ensures Names(mem', WithEntry(dirs, dp, at, to), d, j, i) <==>
      (if d == dp && j == at then Linked(mem, dp) && i == to else Names(mem, dirs, d, j, i))
  {
    hide Linked;
  }

  lemma NamingPlus(mem: seq<Inode>, mem': seq<Inode>, dirs: Dirs, dp: nat, at: nat, to: nat, i: nat)
    requires SameLinked(mem, mem', dirs) && dp in dirs && Linked(mem, dp) && 1 <= at <= |dirs[dp]|
    requires i != 0 && (at < |dirs[dp]| ==> dirs[dp][at] == 0)
    ensures |Naming(mem', WithEntry(dirs, dp, at, to), i)| == |Naming(mem, dirs, i)| + (if to == i then 1 else 0)
  {
    var now, was := Naming(mem', WithEntry(dirs, dp, at, to), i), Naming(mem, dirs, i);
    forall d, j
      ensures Home(d, j) in now <==> Home(d, j) in was || (d == dp && j == at && to == i)
    {
      NamesAfter(mem, mem', dirs, dp, at, to, d, j, i);
    }
    assert Home(dp, at) !in was;
    assert now == if to == i then was + {Home(dp, at)} else was;
  }

  lemma NamingMinus(mem: seq<Inode>, mem': seq<Inode>, dirs: Dirs, dp: nat, at: nat, i: nat)
    requires SameLinked(mem, mem', dirs) && dp in dirs && Linked(mem, dp) && 1 <= at < |dirs[dp]| && i != 0
    ensures |Naming(mem', WithEntry(dirs, dp, at, 0), i)| == |Naming(mem, dirs, i)| - (if dirs[dp][at] == i then 1
                                                                      else 0)
  {
    var now, was := Naming(mem', WithEntry(dirs, dp, at, 0), i), Naming(mem, dirs, i);
    forall d, j
      ensures Home(d, j) in now <==> Home(d, j) in was && !(d == dp && j == at)
    {
      NamesAfter(mem, mem', dirs, dp, at, 0, d, j, i);
    }
    assert dirs[dp][at] == i <==> Home(dp, at) in was;
    assert now == was - {Home(dp, at)};
  }

  /** An entry for something that is not a directory, or none, leaves the tree as it is. */
  lemma FileEntryRooted(mem: seq<Inode>, mem': seq<Inode>, dirs: Dirs, home: map<nat, Home>, depth: map<nat, nat>,
                        dp: nat, at: nat, to: nat)
    requires Rooted(mem, dirs, home, depth) && SameLinked(mem, mem', dirs)
    requires dp in dirs && 2 <= at <= |dirs[dp]| && to !in dirs && (at < |dirs[dp]| ==> dirs[dp][at] !in dirs)
    ensures Rooted(mem', WithEntry(dirs, dp, at, to), home, depth)
  {
    hide Linked, WithEntry, Names;
    var dirs' := WithEntry(dirs, dp, at, to);
    assert dirs'.Keys == dirs.Keys by { KeysAfter(dirs, dp, at, to); }
    forall d: nat, j: nat, i: nat
      ensures i in dirs ==> (Names(mem', dirs', d, j, i) <==> Names(mem, dirs, d, j, i))
    {
      NamesAfter(mem, mem', dirs, dp, at, to, d, j, i);
      if i in dirs {
        NotThere(mem, dirs, dp, at, i);
      }
    }
    assert ROOTINO in dirs by { NamerIsDir(mem, dirs, ROOTINO, 1, ROOTINO); }
    forall d | d in dirs' && Linked(mem', d) && d != ROOTINO
      ensures HomeOk(mem', dirs', home, depth, d)
    {
      assert HomeOk(mem, dirs, home, depth, d);
      ParentIsDir(mem, dirs, home, depth, d);
    }
  }

  lemma KeysAfter(dirs: Dirs, dp: nat, at: nat, to: nat)
    requires dp in dirs && at <= |dirs[dp]|
    ensures WithEntry(dirs, dp, at, to).Keys == dirs.Keys
  {
  }

  lemma NamerIsDir(mem: seq<Inode>, dirs: Dirs, d: nat, j: nat, i: nat)
    requires Names(mem, dirs, d, j, i)
    ensures d in dirs && Linked(mem, d) && 1 <= j < |dirs[d]| && dirs[d][j] == i
  {
  }

  lemma NotThere(mem: seq<Inode>, dirs: Dirs, dp: nat, at: nat, i: nat)
    requires dp in dirs && (at < |dirs[dp]| ==> dirs[dp][at] !in dirs) && i in dirs
    ensures !Names(mem, dirs, dp, at, i)
  {
  }

  lemma ParentIsDir(mem: seq<Inode>, dirs: Dirs, home: map<nat, Home>, depth: map<nat, nat>, d: nat)
    requires HomeOk(mem, dirs, home, depth, d)
    ensures d in dirs && home[d].dir in dirs
  {
  }

  /** Counting a new entry for ip, whose count grows by one. */
  lemma PlusCounted(mem: seq<Inode>, mem': seq<Inode>, dirs: Dirs, dp: nat, at: nat, ip: nat)
    requires Counted(mem, dirs) && SameLinked(mem, mem', dirs) && dp in dirs && Linked(mem, dp)
    requires 2 <= at <= |dirs[dp]| && (at < |dirs[dp]| ==> dirs[dp][at] == 0)
    requires 1 <= ip < |mem| == |mem'| && mem'[ip].kind != 0 && mem'[ip].nlink == mem[ip].nlink + 1
    requires forall i | 0 <= i < |mem| && i != ip :: mem'[i] == mem[i]
    ensures Counted(mem', WithEntry(dirs, dp, at, ip))
  {
    hide Naming, Linked, WithEntry, Names;
    var dirs' := WithEntry(dirs, dp, at, ip);
    forall i | 1 <= i < |mem|
      ensures mem'[i].nlink == |Naming(mem', dirs', i)|
    {
      NamingPlus(mem, mem', dirs, dp, at, ip, i);
    }
    forall d: nat, j: nat, i: nat | Names(mem', dirs', d, j, i) && i != 0
      ensures i < |mem'| && mem'[i].kind != 0
    {
      NamesAfter(mem, mem', dirs, dp, at, ip, d, j, i);
    }
  }

  /** sys_link: one more name for a file that is not a directory. */
  lemma LinkKeeps(mem: seq<Inode>, dirs: Dirs, home: map<nat, Home>, depth: map<nat, nat>, ip: nat, dp: nat, at: nat)
    requires LinkInv(mem, dirs, home, depth)
    requires 1 <= ip < |mem| && mem[ip].kind != 0 && mem[ip].kind != T_DIR && mem[ip].nlink < 0xffff
    requires dp in dirs && Linked(mem, dp) && 2 <= at <= |dirs[dp]| && (at < |dirs[dp]| ==> dirs[dp][at] == 0)
    ensures LinkInv(WithLinks(mem, ip, mem[ip].nlink + 1), WithEntry(dirs, dp, at, ip), home, depth)
  {
    hide Counted, Rooted;
    var mem' := WithLinks(mem, ip, mem[ip].nlink + 1);
    FileEntryRooted(mem, mem', dirs, home, depth, dp, at, ip);
    PlusCounted(mem, mem', dirs, dp, at, ip);
  }

  /** create of a file or device: a fresh inode with one name. */
  lemma CreateFileKeeps(mem: seq<Inode>, dirs: Dirs, home: map<nat, Home>, depth: map<nat, nat>, ip: nat, ino: Inode,
                        dp: nat, at: nat)
    requires LinkInv(mem, dirs, home, depth)
    requires 1 <= ip < |mem| && mem[ip].kind == 0 && ino.kind != 0 && ino.kind != T_DIR && ino.nlink == 1
    requires dp in dirs && Linked(mem, dp) && 2 <= at <= |dirs[dp]| && (at < |dirs[dp]| ==> dirs[dp][at] == 0)
    ensures LinkInv(mem[ip := ino], WithEntry(dirs, dp, at, ip), home, depth)
  {
    hide Counted, Rooted;
    var mem' := mem[ip := ino];
    FileEntryRooted(mem, mem', dirs, home, depth, dp, at, ip);
    PlusCounted(mem, mem', dirs, dp, at, ip);
  }

  lemma MinusCounted(mem: seq<Inode>, mem': seq<Inode>, dirs: Dirs, dp: nat, at: nat)
    requires Counted(mem, dirs) && SameLinked(mem, mem', dirs) && dp in dirs && Linked(mem, dp) && 2 <= at < |dirs[dp]|
    requires var ip := dirs[dp][at];
      1 <= ip < |mem| == |mem'| && mem'[ip].kind == mem[ip].kind && mem'[ip].nlink == mem[ip].nlink - 1
    requires var ip := dirs[dp][at]; forall i | 0 <= i < |mem| && i != ip :: mem'[i] == mem[i]
    ensures Counted(mem', WithEntry(dirs, dp, at, 0))
  {
    hide Naming, Linked, WithEntry, Names;
    var dirs' := WithEntry(dirs, dp, at, 0);
    forall i | 1 <= i < |mem|
      ensures mem'[i].nlink == |Naming(mem', dirs', i)|
    {
      NamingMinus(mem, mem', dirs, dp, at, i);
    }
    forall d: nat, j: nat, i: nat | Names(mem', dirs', d, j, i) && i != 0
      ensures i < |mem'| && mem'[i].kind != 0
    {
      NamesAfter(mem, mem', dirs, dp, at, 0, d, j, i);
    }
  }

  /** sys_unlink of something that is not a directory. */
  lemma UnlinkFileKeeps(mem: seq<Inode>, dirs: Dirs, home: map<nat, Home>, depth: map<nat, nat>, dp: nat, at: nat,
                        ip: nat)
    requires LinkInv(mem, dirs, home, depth) && Names(mem, dirs, dp, at, ip) && at >= 2 && ip != 0 && ip !in dirs
    ensures Linked(mem, ip) && LinkInv(WithLinks(mem, ip, mem[ip].nlink - 1), WithEntry(dirs, dp, at, 0), home, depth)
  {
    hide Counted, Rooted, Naming, Names;
    NamedIsLinked(mem, dirs, dp, at, ip);
    NamerIsDir(mem, dirs, dp, at, ip);
    var mem' := WithLinks(mem, ip, mem[ip].nlink - 1);
    FileEntryRooted(mem, mem', dirs, home, depth, dp, at, 0);
    MinusCounted(mem, mem', dirs, dp, at);
  }

  lemma SameNaming(mem: seq<Inode>, dirs: Dirs, mem': seq<Inode>, dirs': Dirs, k: nat)
    requires forall d: nat, j: nat :: Names(mem', dirs', d, j, k) <==> Names(mem, dirs, d, j, k)
    ensures Naming(mem', dirs', k) == Naming(mem, dirs, k)
  {
  }

  ghost predicate SameNames(mem: seq<Inode>, dirs: Dirs, mem': seq<Inode>, dirs': Dirs)
  {
    forall d: nat, j: nat, k: nat :: Names(mem', dirs', d, j, k) <==> Names(mem, dirs, d, j, k)
  }

  lemma SameCounted(mem: seq<Inode>, dirs: Dirs, mem': seq<Inode>, dirs': Dirs, i: nat)
    requires Counted(mem, dirs) && SameNames(mem, dirs, mem', dirs') && |mem'| == |mem| && i < |mem|
    requires forall k | 0 <= k < |mem| && k != i :: mem'[k] == mem[k]
    requires mem'[i].nlink == mem[i].nlink && forall d: nat, j: nat :: !Names(mem, dirs, d, j, i)
    ensures Counted(mem', dirs')
  {
    hide Names, Naming;
    forall k | 1 <= k < |mem|
      ensures Naming(mem', dirs', k) == Naming(mem, dirs, k)
    {
      SameNaming(mem, dirs, mem', dirs', k);
    }
  }

  lemma SameRooted(mem: seq<Inode>, dirs: Dirs, mem': seq<Inode>, dirs': Dirs, home: map<nat, Home>,
                   depth: map<nat, nat>)
    requires Rooted(mem, dirs, home, depth) && SameNames(mem, dirs, mem', dirs')
    requires forall d | d in dirs' :: d in dirs && Linked(mem', d) == Linked(mem, d)
    ensures Rooted(mem', dirs', home, depth)
  {
    hide Names, Linked;
    forall d | d in dirs' && Linked(mem', d) && d != ROOTINO
      ensures HomeOk(mem', dirs', home, depth, d)
    {
      assert HomeOk(mem, dirs, home, depth, d);
    }
  }

  lemma NotNamed(mem: seq<Inode>, dirs: Dirs, i: nat)
    requires Shaped(mem, dirs) && Counted(mem, dirs) && 1 <= i && !Linked(mem, i)
    ensures forall d: nat, j: nat :: !Names(mem, dirs, d, j, i)
  {
    hide Names, Shaped, Counted;
    forall d: nat, j: nat
      ensures !Names(mem, dirs, d, j, i)
    {
      if Names(mem, dirs, d, j, i) {
        NamedIsLinked(mem, dirs, d, j, i);
      }
    }
  }

  /** iput of the last reference: an inode without links is freed. */
  lemma FreeKeeps(mem: seq<Inode>, dirs: Dirs, home: map<nat, Home>, depth: map<nat, nat>, i: nat, ino: Inode)
    requires LinkInv(mem, dirs, home, depth) && 1 <= i < |mem| && mem[i].nlink == 0 && ino.kind == 0 && ino.nlink == 0
    ensures LinkInv(mem[i := ino], dirs - {i}, home, depth)
  {
    hide Counted, Rooted;
    var mem', dirs' := mem[i := ino], dirs - {i};
    NotNamed(mem, dirs, i);
    assert SameNames(mem, dirs, mem', dirs') by { hide Shaped; }
    hide Names;
    SameCounted(mem, dirs, mem', dirs', i);
    SameRooted(mem, dirs, mem', dirs', home, depth);
  }

  // ---------------------------------------------------------------- directories

  /** What the directory cases of create and unlink do to the counts: the name of the directory and
      its ".." come and go together. */
  ghost function Made(dirs: Dirs, ip: nat, dp: nat, at: nat): Dirs
    requires dp in dirs && at <= |dirs[dp]| && ip !in dirs
  {
    WithEntry(dirs, dp, at, ip)[ip := [ip, dp]]
  }

  lemma MadeNames(mem: seq<Inode>, mem': seq<Inode>, dirs: Dirs, ip: nat, dp: nat, at: nat, d: nat, j: nat, i: nat)
    requires SameLinked(mem, mem', dirs) && dp in dirs && Linked(mem, dp) && 2 <= at <= |dirs[dp]| && ip !in dirs
             && Linked(mem', ip)
    ensures Names(mem', Made(dirs, ip, dp, at), d, j, i) <==>
      (if d == dp && j == at then i == ip else if d == ip then j == 1 && i == dp else Names(mem, dirs, d, j, i))
  {
    hide Linked;
  }

  lemma MadeNaming(mem: seq<Inode>, mem': seq<Inode>, dirs: Dirs, ip: nat, dp: nat, at: nat, i: nat)
    requires SameLinked(mem, mem', dirs) && dp in dirs && Linked(mem, dp) && 2 <= at <= |dirs[dp]| && ip !in dirs
             && Linked(mem', ip)
    requires i != 0 && (at < |dirs[dp]| ==> dirs[dp][at] == 0) && dp != ip
    ensures |Naming(mem', Made(dirs, ip, dp, at), i)| == |Naming(mem, dirs, i)| + (if i == ip || i == dp then 1 else 0)
  {
    hide Names, Naming, Made;
    var now, was := Naming(mem', Made(dirs, ip, dp, at), i), Naming(mem, dirs, i);
    forall h: Home
      ensures h in now <==> h in was || (i == ip && h == Home(dp, at)) || (i == dp && h == Home(ip, 1))
      ensures h == Home(dp, at) || h == Home(ip, 1) ==> h !in was
    {
      InNaming(mem, dirs, i, h);
      InNaming(mem', Made(dirs, ip, dp, at), i, h);
      MadeNames(mem, mem', dirs, ip, dp, at, h.dir, h.at, i);
      FreshHome(mem, dirs, ip, dp, at, h, i);
    }
    if i == ip {
      assert now == was + {Home(dp, at)};
    } else if i == dp {
      assert now == was + {Home(ip, 1)};
    } else {
      assert now == was;
    }
  }

  lemma InNaming(mem: seq<Inode>, dirs: Dirs, i: nat, h: Home)
    ensures h in Naming(mem, dirs, i) <==> Names(mem, dirs, h.dir, h.at, i)
  {
  }

  lemma FreshHome(mem: seq<Inode>, dirs: Dirs, ip: nat, dp: nat, at: nat, h: Home, i: nat)
    requires ip !in dirs && dp in dirs && i != 0 && (at < |dirs[dp]| ==> dirs[dp][at] == 0)
    ensures h == Home(dp, at) || h.dir == ip ==> !Names(mem, dirs, h.dir, h.at, i)
  {
  }

  /** create of a directory. */
  lemma CreateDirKeeps(mem: seq<Inode>, dirs: Dirs, home: map<nat, Home>, depth: map<nat, nat>, ip: nat, ino: Inode,
                       dp: nat, at: nat)
    requires LinkInv(mem, dirs, home, depth)
    requires 1 <= ip < |mem| && mem[ip].kind == 0 && ino.kind == T_DIR && ino.nlink == 1
    requires dp in dirs && Linked(mem, dp) && mem[dp].nlink < 0xffff
    requires 2 <= at <= |dirs[dp]| && (at < |dirs[dp]| ==> dirs[dp][at] == 0)
    ensures dp in depth
    ensures LinkInv(WithLinks(mem, dp, mem[dp].nlink + 1)[ip := ino], Made(dirs, ip, dp, at),
                    home[ip := Home(dp, at)], depth[ip := depth[dp] + 1])
  {
    hide Counted, Rooted;
    var mem' := WithLinks(mem, dp, mem[dp].nlink + 1)[ip := ino];
    assert dp != ip;
    assert SameLinked(mem, mem', dirs);
    MadeCounted(mem, mem', dirs, ip, dp, at);
    MadeRooted(mem, mem', dirs, home, depth, ip, dp, at);
  }

  lemma MadeCounted(mem: seq<Inode>, mem': seq<Inode>, dirs: Dirs, ip: nat, dp: nat, at: nat)
    requires Counted(mem, dirs) && SameLinked(mem, mem', dirs) && dp in dirs && Linked(mem, dp) && 2 <= at <= |dirs[dp]|
    requires ip !in dirs && Linked(mem', ip) && (at < |dirs[dp]| ==> dirs[dp][at] == 0) && dp != ip
    requires |mem'| == |mem| && mem[ip].nlink == 0 && mem'[ip].nlink == 1 && mem'[ip].kind != 0 && mem[dp].kind != 0
    requires mem'[dp] == mem[dp].(nlink := mem'[dp].nlink) && mem'[dp].nlink == mem[dp].nlink + 1
    requires forall i | 0 <= i < |mem| && i != dp && i != ip :: mem'[i] == mem[i]
    ensures Counted(mem', Made(dirs, ip, dp, at))
  {
    hide Naming, Names, Made;
    var dirs' := Made(dirs, ip, dp, at);
    forall i | 1 <= i < |mem|
      ensures mem'[i].nlink == |Naming(mem', dirs', i)|
    {
      MadeNaming(mem, mem', dirs, ip, dp, at, i);
    }
    forall d: nat, j: nat, i: nat | Names(mem', dirs', d, j, i) && i != 0
      ensures i < |mem'| && mem'[i].kind != 0
    {
      MadeNames(mem, mem', dirs, ip, dp, at, d, j, i);
    }
  }

  lemma MadeRooted(mem: seq<Inode>, mem': seq<Inode>, dirs: Dirs, home: map<nat, Home>, depth: map<nat, nat>, ip: nat,
                   dp: nat, at: nat)
    requires Shaped(mem, dirs) && Counted(mem, dirs) && Rooted(mem, dirs, home, depth) && SameLinked(mem, mem', dirs)
    requires dp in dirs && Linked(mem, dp) && 2 <= at <= |dirs[dp]| && ip !in dirs && Linked(mem', ip)
             && !Linked(mem, ip) && ip >= 1
    requires at < |dirs[dp]| ==> dirs[dp][at] == 0
    ensures dp in depth && Rooted(mem', Made(dirs, ip, dp, at), home[ip := Home(dp, at)], depth[ip := depth[dp] + 1])
  {
    hide Counted, Shaped, Names, Linked, WithEntry;
    assert dp in depth by { if dp != ROOTINO { assert HomeOk(mem, dirs, home, depth, dp); } }
    assert ROOTINO in dirs by { NamerIsDir(mem, dirs, ROOTINO, 1, ROOTINO); }
    NotNamed(mem, dirs, ip);
    var dirs', home', depth' := Made(dirs, ip, dp, at), home[ip := Home(dp, at)], depth[ip := depth[dp] + 1];
    assert dirs'.Keys == dirs.Keys + {ip} by { KeysAfter(dirs, dp, at, ip); }
    hide Made;
    forall d: nat, j: nat, i: nat
      ensures Names(mem', dirs', d, j, i) <==>
        (if d == dp && j == at then i == ip else if d == ip then j == 1 && i == dp else Names(mem, dirs, d, j, i))
    {
      MadeNames(mem, mem', dirs, ip, dp, at, d, j, i);
    }
    forall d | d in dirs' && Linked(mem', d) && d != ROOTINO
      ensures HomeOk(mem', dirs', home', depth', d)
    {
      if d != ip {
        assert HomeOk(mem, dirs, home, depth, d);
        ParentIsDir(mem, dirs, home, depth, d);
        EntryIsUsed(mem, dirs, home[d].dir, home[d].at, d, dp, at);
      }
    }
  }

  /** The entry that create fills is not one that names a directory. */
  lemma EntryIsUsed(mem: seq<Inode>, dirs: Dirs, p: nat, j: nat, d: nat, dp: nat, at: nat)
    requires Names(mem, dirs, p, j, d) && Shaped(mem, dirs) && d in dirs
    requires dp in dirs && at <= |dirs[dp]| && (at < |dirs[dp]| ==> dirs[dp][at] == 0)
    ensures !(p == dp && j == at)
  {
  }

  // ---------------------------------------------------------------- removing a directory

  /** An empty linked directory other than the root is named once: from its parent. */
  lemma OnlyName(mem: seq<Inode>, dirs: Dirs, home: map<nat, Home>, depth: map<nat, nat>, dp: nat, at: nat, ip: nat)
    requires LinkInv(mem, dirs, home, depth) && Names(mem, dirs, dp, at, ip) && at >= 2 && ip in dirs && Empty(dirs[ip])
    ensures ip != ROOTINO && ip != dp && Linked(mem, ip) && mem[ip].nlink == 1 && dirs[ip][1] == dp
    ensures Naming(mem, dirs, ip) == {Home(dp, at)}
  {
    hide Naming, Counted;
    assert ip != 0;
    NamedIsLinked(mem, dirs, dp, at, ip);
    assert HomeOk(mem, dirs, home, depth, ip) && home[ip] == Home(dp, at);
    forall h: Home
      ensures h in Naming(mem, dirs, ip) <==> h == Home(dp, at)
    {
      InNaming(mem, dirs, ip, h);
    }
    assert Naming(mem, dirs, ip) == {Home(dp, at)};
    CountIs(mem, dirs, ip);
  }

  lemma CountIs(mem: seq<Inode>, dirs: Dirs, i: nat)
    requires Counted(mem, dirs) && 1 <= i < |mem|
    ensures mem[i].nlink == |Naming(mem, dirs, i)|
  {
  }

  /** The parent of a directory has a name besides the ".." of that directory. */
  lemma ParentHasTwo(mem: seq<Inode>, dirs: Dirs, home: map<nat, Home>, depth: map<nat, nat>, dp: nat, ip: nat)
    requires LinkInv(mem, dirs, home, depth) && Names(mem, dirs, ip, 1, dp) && ip != ROOTINO && dp in dirs
             && Linked(mem, dp)
    ensures mem[dp].nlink >= 2
  {
    hide Naming, Counted;
    var other := if dp == ROOTINO then Home(ROOTINO, 1) else home[dp];
    if dp != ROOTINO {
      assert HomeOk(mem, dirs, home, depth, dp);
    }
    InNaming(mem, dirs, dp, other);
    InNaming(mem, dirs, dp, Home(ip, 1));
    TwoMembers(Naming(mem, dirs, dp), other, Home(ip, 1));
    CountIs(mem, dirs, dp);
  }

  lemma TwoMembers(s: set<Home>, a: Home, b: Home)
    requires a in s && b in s && a != b
    ensures |s| >= 2
  {
    assert |s - {a} - {b}| == |s| - 2;
  }

  /** Directory ip, empty, loses its name and with it the count its ".." gave its parent. */
  ghost predicate Removing(mem: seq<Inode>, mem': seq<Inode>, dirs: Dirs, dp: nat, at: nat, ip: nat)
  {
    && dp in dirs && ip in dirs && dp != ip && 2 <= at < |dirs[dp]| && |dirs[ip]| >= 2 && Empty(dirs[ip])
    && dirs[ip][1] == dp
    && Linked(mem, dp) && Linked(mem', dp) && !Linked(mem', ip) && dirs[dp][at] == ip
    && forall d | d in dirs && d != ip :: Linked(mem', d) == Linked(mem, d)
  }

  lemma RemovedNames(mem: seq<Inode>, mem': seq<Inode>, dirs: Dirs, dp: nat, at: nat, ip: nat, d: nat, j: nat, i: nat)
    requires Removing(mem, mem', dirs, dp, at, ip)
    ensures Names(mem', WithEntry(dirs, dp, at, 0), d, j, i) <==>
      (if d == dp && j == at then i == 0 else d != ip && Names(mem, dirs, d, j, i))
    ensures d == ip && Names(mem, dirs, d, j, i) && i != 0 ==> j == 1 && i == dp
  {
    hide Linked;
  }

  lemma RemovedNaming(mem: seq<Inode>, mem': seq<Inode>, dirs: Dirs, dp: nat, at: nat, ip: nat, i: nat)
    requires Removing(mem, mem', dirs, dp, at, ip) && i != 0 && Naming(mem, dirs, ip) == {Home(dp, at)}
             && Linked(mem, ip)
    ensures |Naming(mem', WithEntry(dirs, dp, at, 0), i)| == |Naming(mem, dirs, i)| - (if i == ip || i == dp then 1
                                                                      else 0)
  {
    hide Names, Naming;
    var now, was := Naming(mem', WithEntry(dirs, dp, at, 0), i), Naming(mem, dirs, i);
    var gone := if i == dp then Home(ip, 1) else Home(dp, at);
    assert Names(mem, dirs, ip, 1, dp) && Names(mem, dirs, dp, at, ip) by { UsedNames(mem, mem', dirs, dp, at, ip); }
    forall h: Home
      ensures h in now <==> h in was && h != gone
      ensures h == gone ==> (h in was <==> i == ip || i == dp)
    {
      InNaming(mem, dirs, i, h);
      InNaming(mem, dirs, ip, h);
      InNaming(mem', WithEntry(dirs, dp, at, 0), i, h);
      RemovedNames(mem, mem', dirs, dp, at, ip, h.dir, h.at, i);
      OneName(mem, dirs, h.dir, h.at, i, ip);
    }
    assert now == was - {gone};
  }

  lemma UsedNames(mem: seq<Inode>, mem': seq<Inode>, dirs: Dirs, dp: nat, at: nat, ip: nat)
    requires Removing(mem, mem', dirs, dp, at, ip) && Linked(mem, ip)
    ensures Names(mem, dirs, ip, 1, dp) && Names(mem, dirs, dp, at, ip)
  {
  }

  lemma OneName(mem: seq<Inode>, dirs: Dirs, d: nat, j: nat, i: nat, k: nat)
    ensures Names(mem, dirs, d, j, i) && Names(mem, dirs, d, j, k) ==> i == k
  {
  }

  lemma RemovedCounted(mem: seq<Inode>, mem': seq<Inode>, dirs: Dirs, dp: nat, at: nat, ip: nat)
    requires Counted(mem, dirs) && Removing(mem, mem', dirs, dp, at, ip) && Linked(mem, ip)
             && Naming(mem, dirs, ip) == {Home(dp, at)}
    requires |mem'| == |mem| && (forall i | 0 <= i < |mem| && i != ip && i != dp :: mem'[i] == mem[i])
    requires mem'[ip] == mem[ip].(nlink := mem[ip].nlink - 1) && mem'[dp] == mem[dp].(nlink := mem[dp].nlink - 1)
    ensures Counted(mem', WithEntry(dirs, dp, at, 0))
  {
    var dirs' := WithEntry(dirs, dp, at, 0);
    hide Naming, Names, Linked, Removing;
    forall i | 1 <= i < |mem|
      ensures mem'[i].nlink == |Naming(mem', dirs', i)|
    {
      RemovedNaming(mem, mem', dirs, dp, at, ip, i);
    }
    forall d: nat, j: nat, i: nat | Names(mem', dirs', d, j, i) && i != 0
      ensures i < |mem'| && mem'[i].kind != 0
    {
      RemovedNames(mem, mem', dirs, dp, at, ip, d, j, i);
    }
  }

  lemma RemovedRooted(mem: seq<Inode>, mem': seq<Inode>, dirs: Dirs, home: map<nat, Home>, depth: map<nat, nat>,
                      dp: nat, at: nat, ip: nat)
    requires Rooted(mem, dirs, home, depth) && Removing(mem, mem', dirs, dp, at, ip) && ip != ROOTINO && ip in home
             && home[ip] == Home(dp, at)
    requires Naming(mem, dirs, ip) == {Home(dp, at)} && Linked(mem, ip) && 0 !in dirs
    ensures Rooted(mem', WithEntry(dirs, dp, at, 0), home, depth)
  {
    hide Naming, Names, Linked, WithEntry;
    var dirs' := WithEntry(dirs, dp, at, 0);
    assert dirs'.Keys == dirs.Keys by { KeysAfter(dirs, dp, at, 0); }
    assert ROOTINO in dirs by { NamerIsDir(mem, dirs, ROOTINO, 1, ROOTINO); }
    forall d: nat, j: nat, i: nat
      ensures Names(mem', dirs', d, j, i) <==>
                (if d == dp && j == at then i == 0 else d != ip && Names(mem, dirs, d, j, i))
      ensures Names(mem, dirs, d, j, ip) ==> d == dp && j == at
      ensures d == ip && Names(mem, dirs, d, j, i) && i != 0 ==> j == 1
    {
      RemovedNames(mem, mem', dirs, dp, at, ip, d, j, i);
      InNaming(mem, dirs, ip, Home(d, j));
    }
    forall d | d in dirs' && Linked(mem', d) && d != ROOTINO
      ensures HomeOk(mem', dirs', home, depth, d)
    {
      assert HomeOk(mem, dirs, home, depth, d);
      OneName(mem, dirs, dp, at, d, ip);
      UsedNames(mem, mem', dirs, dp, at, ip);
      ParentIsDir(mem, dirs, home, depth, d);
    }
  }

  /** sys_unlink of an empty directory. */
  lemma UnlinkDirKeeps(mem: seq<Inode>, dirs: Dirs, home: map<nat, Home>, depth: map<nat, nat>, dp: nat, at: nat,
                       ip: nat)
    requires LinkInv(mem, dirs, home, depth) && Names(mem, dirs, dp, at, ip) && at >= 2 && ip in dirs && Empty(dirs[ip])
    ensures ip != dp && Linked(mem, ip) && Linked(mem, dp)
    ensures LinkInv(WithLinks(WithLinks(mem, dp, mem[dp].nlink - 1), ip, mem[ip].nlink - 1),
                    WithEntry(dirs, dp, at, 0), home, depth)
  {
    OnlyName(mem, dirs, home, depth, dp, at, ip);
    UnlinkDirMore(mem, dirs, home, depth, dp, at, ip);
  }

  lemma UnlinkDirMore(mem: seq<Inode>, dirs: Dirs, home: map<nat, Home>, depth: map<nat, nat>, dp: nat, at: nat,
                      ip: nat)
    requires LinkInv(mem, dirs, home, depth) && Names(mem, dirs, dp, at, ip) && at >= 2 && ip in dirs && Empty(dirs[ip])
    requires ip != ROOTINO && ip != dp && Linked(mem, ip) && mem[ip].nlink == 1 && dirs[ip][1] == dp
    requires Naming(mem, dirs, ip) == {Home(dp, at)}
    ensures Linked(mem, dp)
    ensures LinkInv(WithLinks(WithLinks(mem, dp, mem[dp].nlink - 1), ip, mem[ip].nlink - 1),
                    WithEntry(dirs, dp, at, 0), home, depth)
  {
    hide Counted, Naming, HomeOk;
    ParentHasTwo(mem, dirs, home, depth, dp, ip);
    var mem' := WithLinks(WithLinks(mem, dp, mem[dp].nlink - 1), ip, mem[ip].nlink - 1);
    RemovedRooted(mem, mem', dirs, home, depth, dp, at, ip);
    hide Rooted;
    RemovedCounted(mem, mem', dirs, dp, at, ip);
  }

  // ---------------------------------------------------------------- runs

  datatype State = State(mem: seq<Inode>, dirs: Dirs, home: map<nat, Home>, depth: map<nat, nat>)

  datatype Action =
    | LinkFile(ip: nat, dp: nat, at: nat)
    | CreateFile(ip: nat, ino: Inode, dp: nat, at: nat)
    | CreateDir(ip: nat, ino: Inode, dp: nat, at: nat)
    | UnlinkFile(ip: nat, dp: nat, at: nat)
    | UnlinkDir(ip: nat, dp: nat, at: nat)
    | FreeInode(ip: nat, ino: Inode)

  /** The entry dirlink fills: a free one, or one past the end. */
  ghost predicate Fillable(s: State, dp: nat, at: nat)
  {
    dp in s.dirs && 2 <= at <= |s.dirs[dp]| && (at < |s.dirs[dp]| ==> s.dirs[dp][at] == 0)
  }

  /** What the code has checked when it acts. */
  ghost predicate Checked(s: State, a: Action)
  {
    match a
    case LinkFile(ip, dp, at) =>
      1 <= ip < |s.mem| && s.mem[ip].kind != 0 && s.mem[ip].kind != T_DIR && Fillable(s, dp, at)
    case CreateFile(ip, ino, dp, at) =>
      1 <= ip < |s.mem| && s.mem[ip].kind == 0 && ino.kind != 0 && ino.kind != T_DIR && ino.nlink == 1
      && Fillable(s, dp, at)
    case CreateDir(ip, ino, dp, at) =>
      1 <= ip < |s.mem| && s.mem[ip].kind == 0 && ino.kind == T_DIR && ino.nlink == 1 && Fillable(s, dp, at)
      && dp < |s.mem| && ip !in s.dirs
    case UnlinkFile(ip, dp, at) =>
      Names(s.mem, s.dirs, dp, at, ip) && at >= 2 && ip != 0 && ip !in s.dirs && Linked(s.mem, ip)
    case UnlinkDir(ip, dp, at) =>
      Names(s.mem, s.dirs, dp, at, ip) && at >= 2 && ip in s.dirs && Empty(s.dirs[ip]) && Linked(s.mem, ip)
      && Linked(s.mem, dp) && ip != dp
    case FreeInode(ip, ino) => 1 <= ip < |s.mem| && s.mem[ip].nlink == 0 && ino.kind == 0 && ino.nlink == 0
  }

  /** What it does not check: a directory that gets a name has links, and a 16-bit count does not
      wrap. */
  ghost predicate Grounded(s: State, a: Action)
    requires Checked(s, a)
  {
    match a
    case LinkFile(ip, dp, at) => Linked(s.mem, dp) && s.mem[ip].nlink < 0xffff
    case CreateFile(ip, ino, dp, at) => Linked(s.mem, dp)
    case CreateDir(ip, ino, dp, at) => Linked(s.mem, dp) && s.mem[dp].nlink < 0xffff
    case UnlinkFile(ip, dp, at) => true
    case UnlinkDir(ip, dp, at) => true
    case FreeInode(ip, ino) => true
  }

  ghost function OneMore(n: half): half
  {
    (n + 1) % 0x1_0000
  }

  ghost function Do(s: State, a: Action): State
    requires Checked(s, a)
  {
    match a
    case LinkFile(ip, dp, at) =>
      s.(mem := WithLinks(s.mem, ip, OneMore(s.mem[ip].nlink)), dirs := WithEntry(s.dirs, dp, at, ip))
    case CreateFile(ip, ino, dp, at) => s.(mem := s.mem[ip := ino], dirs := WithEntry(s.dirs, dp, at, ip))
    case CreateDir(ip, ino, dp, at) =>
      State(WithLinks(s.mem, dp, OneMore(s.mem[dp].nlink))[ip := ino], Made(s.dirs, ip, dp, at),
            s.home[ip := Home(dp, at)], s.depth[ip := (if dp in s.depth then s.depth[dp] else 0) + 1])
    case UnlinkFile(ip, dp, at) =>
      s.(mem := WithLinks(s.mem, ip, s.mem[ip].nlink - 1), dirs := WithEntry(s.dirs, dp, at, 0))
    case UnlinkDir(ip, dp, at) =>
      s.(mem := WithLinks(WithLinks(s.mem, dp, s.mem[dp].nlink - 1), ip, s.mem[ip].nlink - 1),
         dirs := WithEntry(s.dirs, dp, at, 0))
    case FreeInode(ip, ino) => s.(mem := s.mem[ip := ino], dirs := s.dirs - {ip})
  }

  ghost predicate Inv(s: State)
  {
    LinkInv(s.mem, s.dirs, s.home, s.depth)
  }

  /** No way to read the directories as a tree makes the invariant hold. */
  ghost predicate Broken(s: State)
  {
    forall home, depth :: !LinkInv(s.mem, s.dirs, home, depth)
  }

  lemma StepKeeps(s: State, a: Action)
    requires Inv(s) && Checked(s, a) && Grounded(s, a)
    ensures Inv(Do(s, a))
  {
    hide LinkInv;
    match a
    case LinkFile(ip, dp, at) => LinkKeeps(s.mem, s.dirs, s.home, s.depth, ip, dp, at);
    case CreateFile(ip, ino, dp, at) => CreateFileKeeps(s.mem, s.dirs, s.home, s.depth, ip, ino, dp, at);
    case CreateDir(ip, ino, dp, at) => CreateDirKeeps(s.mem, s.dirs, s.home, s.depth, ip, ino, dp, at);
    case UnlinkFile(ip, dp, at) => UnlinkFileKeeps(s.mem, s.dirs, s.home, s.depth, dp, at, ip);
    case UnlinkDir(ip, dp, at) => UnlinkDirKeeps(s.mem, s.dirs, s.home, s.depth, dp, at, ip);
    case FreeInode(ip, ino) => FreeKeeps(s.mem, s.dirs, s.home, s.depth, ip, ino);
  }

  /** A directory without links that is not empty. */
  lemma FullUnlinked(mem: seq<Inode>, dirs: Dirs, d: nat, at: nat)
    requires d in dirs && d < |mem| && mem[d].nlink == 0 && 2 <= at < |dirs[d]| && dirs[d][at] != 0
    ensures !Shaped(mem, dirs)
  {
  }

  /** A linked directory other than the root that no directory names. */
  lemma Homeless(mem: seq<Inode>, dirs: Dirs, d: nat)
    requires d in dirs && Linked(mem, d) && d != ROOTINO && forall p: nat, j: nat | j >= 2 :: !Names(mem, dirs, p, j, d)
    ensures forall home, depth :: !Rooted(mem, dirs, home, depth)
  {
    hide Names;
  }

  lemma LinkBreaks(s: State, ip: nat, dp: nat, at: nat)
    requires Inv(s) && Checked(s, LinkFile(ip, dp, at)) && !Grounded(s, LinkFile(ip, dp, at))
    ensures Broken(Do(s, LinkFile(ip, dp, at)))
  {
    hide Naming, Names, Rooted;
    var s' := Do(s, LinkFile(ip, dp, at));
    if !Linked(s.mem, dp) {
      FullUnlinked(s'.mem, s'.dirs, dp, at);
    } else {
      NamingPlus(s.mem, s'.mem, s.dirs, dp, at, ip, ip);
      assert s'.mem[ip].nlink != |Naming(s'.mem, s'.dirs, ip)|;
    }
  }

  lemma CreateFileBreaks(s: State, ip: nat, ino: Inode, dp: nat, at: nat)
    requires Inv(s) && Checked(s, CreateFile(ip, ino, dp, at)) && !Grounded(s, CreateFile(ip, ino, dp, at))
    ensures Broken(Do(s, CreateFile(ip, ino, dp, at)))
  {
    hide Counted, Rooted;
    var s' := Do(s, CreateFile(ip, ino, dp, at));
    FullUnlinked(s'.mem, s'.dirs, dp, at);
  }

  lemma CreateDirBreaks(s: State, ip: nat, ino: Inode, dp: nat, at: nat)
    requires Inv(s) && Checked(s, CreateDir(ip, ino, dp, at)) && !Grounded(s, CreateDir(ip, ino, dp, at))
    ensures Broken(Do(s, CreateDir(ip, ino, dp, at)))
  {
    hide Counted, Names, Rooted;
    var s' := Do(s, CreateDir(ip, ino, dp, at));
    if Linked(s.mem, dp) {
      FullUnlinked(s'.mem, s'.dirs, dp, at);
    } else {
      RootLinked(s);
      StillUnnamed(s, ip, ino, dp, at);
      Homeless(s'.mem, s'.dirs, dp);
    }
  }

  lemma RootLinked(s: State)
    requires Inv(s)
    ensures Linked(s.mem, ROOTINO)
  {
    hide Counted;
  }

  lemma StillUnnamed(s: State, ip: nat, ino: Inode, dp: nat, at: nat)
    requires Inv(s) && Checked(s, CreateDir(ip, ino, dp, at)) && !Linked(s.mem, dp)
    ensures var s' := Do(s, CreateDir(ip, ino, dp, at));
      forall p: nat, j: nat | j >= 2 :: !Names(s'.mem, s'.dirs, p, j, dp)
  {
    hide Counted, Rooted;
    var s' := Do(s, CreateDir(ip, ino, dp, at));
    NotNamed(s.mem, s.dirs, dp);
    forall p: nat, j: nat | j >= 2
      ensures !Names(s'.mem, s'.dirs, p, j, dp)
    {
      assert !Names(s.mem, s.dirs, p, j, dp);
    }
  }

  /** A call that has passed its checks keeps the invariant exactly when it is grounded. */
  lemma StepExact(s: State, a: Action)
    requires Inv(s) && Checked(s, a)
    ensures if Grounded(s, a) then Inv(Do(s, a)) else Broken(Do(s, a))
  {
    hide LinkInv;
    if Grounded(s, a) {
      StepKeeps(s, a);
    } else {
      match a
      case LinkFile(ip, dp, at) => LinkBreaks(s, ip, dp, at);
      case CreateFile(ip, ino, dp, at) => CreateFileBreaks(s, ip, ino, dp, at);
      case CreateDir(ip, ino, dp, at) => CreateDirBreaks(s, ip, ino, dp, at);
    }
  }

  /** The file system mkfs starts from: a root directory that is its own parent. */
  ghost predicate Fresh(s: State)
  {
    && |s.mem| > ROOTINO && s.mem[ROOTINO].kind == T_DIR && s.mem[ROOTINO].nlink == 1
    && (forall i | 0 <= i < |s.mem| && i != ROOTINO :: s.mem[i].kind == 0 && s.mem[i].nlink == 0)
    && s.dirs == map[ROOTINO := [ROOTINO, ROOTINO]] && s.home == map[] && s.depth == map[ROOTINO := 0]
  }

  lemma FreshInv(s: State)
    requires Fresh(s)
    ensures Inv(s)
  {
    forall i | 1 <= i < |s.mem|
      ensures s.mem[i].nlink == |Naming(s.mem, s.dirs, i)|
    {
      if i == ROOTINO {
        assert Naming(s.mem, s.dirs, i) == {Home(ROOTINO, 1)};
      } else {
        assert Naming(s.mem, s.dirs, i) == {};
      }
    }
  }

  /** A run: each state follows from the one before by an allowed action. */
  ghost predicate Run(states: seq<State>, actions: seq<Action>)
  {
    && |states| == |actions| + 1 && Fresh(states[0])
    && forall n | 0 <= n < |actions| ::
      Checked(states[n], actions[n]) && Grounded(states[n], actions[n]) && states[n + 1] == Do(states[n], actions[n])
  }

  /** In every reachable state each count is the number of entries of linked directories, other than
      ".", that name the inode, and following ".." from a linked directory reaches the root. */
  lemma {:induction false} LinkCounts(states: seq<State>, actions: seq<Action>, n: nat)
    requires Run(states, actions) && n < |states|
    ensures Inv(states[n])
    ensures var s := states[n]; forall i | 1 <= i < |s.mem| :: s.mem[i].nlink == |Naming(s.mem, s.dirs, i)|
    ensures var s := states[n]; forall d | d in s.dirs && Linked(s.mem, d) :: ReachesRoot(s.dirs, d)
    decreases n
  {
    hide Checked, Grounded, Do, Fresh, Naming, Shaped, Rooted, ReachesRoot;
    if n == 0 {
      FreshInv(states[0]);
    } else {
      LinkCounts(states, actions, n - 1);
      assert Checked(states[n - 1], actions[n - 1]) && states[n - 1 + 1] == Do(states[n - 1], actions[n - 1]);
      StepKeeps(states[n - 1], actions[n - 1]);
    }
    var s := states[n];
    forall d | d in s.dirs && Linked(s.mem, d)
      ensures ReachesRoot(s.dirs, d)
    {
      UpReachesRoot(s.mem, s.dirs, s.home, s.depth, d);
    }
  }

  /** mkdir, chdir into it and remove it, then create a file there: the count of the file is 1 and no
      linked directory names it. */
  lemma RemovedDirBreaks(s: State, dir: Inode, file: Inode)
    returns (states: seq<State>, actions: seq<Action>, last: Action)
    requires Fresh(s) && |s.mem| >= 4 && dir.kind == T_DIR && dir.nlink == 1
    requires file.kind != 0 && file.kind != T_DIR && file.nlink == 1
    ensures Run(states, actions) && states[0] == s && |actions| == 2
    ensures Checked(states[2], last) && Broken(Do(states[2], last))
  {
    hide LinkInv, Broken;
    var make, remove := CreateDir(2, dir, ROOTINO, 2), UnlinkDir(2, ROOTINO, 2);
    var s1 := Do(s, make);
    assert [ROOTINO, ROOTINO] + [2] == [ROOTINO, ROOTINO, 2];
    assert s1.dirs == map[ROOTINO := [ROOTINO, ROOTINO, 2], 2 := [2, ROOTINO]];
    assert Checked(s1, remove);
    var s2 := Do(s1, remove);
    states, actions, last := [s, s1, s2], [make, remove], CreateFile(3, file, 2, 2);
    FreshInv(s);
    StepKeeps(s, make);
    StepKeeps(s1, remove);
    StepExact(s2, last);
  }
}
