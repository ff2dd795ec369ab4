/** The on-disk redo log of log.c: which block writes a commit and a recovery issue, and what
    survives a crash between any two of them. */
module LogRecovery {
  import opened Blocks
  import opened BufferCache

  /** Where the log lives. `logsize` is LOGSIZE, `size` is sb.nlog. */
  datatype Layout = Layout(start: nat, size: nat, logsize: nat, blocks: nat)

  ghost predicate LayoutOk(l: Layout)
  {
    && 4 * (l.logsize + 1) < BSIZE          // initlog's "too big logheader" check
    && 1 <= l.size && l.start + l.size <= l.blocks <= TWO32
  }

  function Capacity(l: Layout): int
  {
    if l.logsize <= l.size - 1 then l.logsize else l.size - 1
  }

  ghost predicate Home(l: Layout, b: nat)
  {
    b < l.blocks && !(l.start <= b < l.start + l.size)
  }

  /** The blocks a transaction wrote through log_write, with their new contents. */
  datatype Tx = Tx(blocks: seq<nat>, data: seq<Block>)

  ghost predicate Loggable(l: Layout, blocks: seq<nat>)
  {
    && |blocks| <= Capacity(l)
    && Distinct(blocks)
    && forall t | 0 <= t < |blocks| :: Home(l, blocks[t])
  }

  ghost predicate TxOk(l: Layout, tx: Tx)
  {
    |tx.blocks| == |tx.data| && Loggable(l, tx.blocks)
  }

  // ----- the header block -----

  ghost function HeaderN(b: Block): int
  {
    Signed(Word(b, 0))
  }

  /** hb->n = n; hb->block[i] = block[i] for i < k: later entries keep what was there. */
  ghost function HeaderUpTo(b: Block, blocks: seq<nat>, k: nat): (r: Block)
    requires k <= |blocks| < WORDS - 1
    requires forall t | 0 <= t < |blocks| :: blocks[t] < TWO32
  {
    if k == 0 then SetWord(b, 0, |blocks|)
    else SetWord(HeaderUpTo(b, blocks, k - 1), k, blocks[k - 1])
  }

  ghost function Header(b: Block, blocks: seq<nat>): Block
    requires |blocks| < WORDS - 1
    requires forall t | 0 <= t < |blocks| :: blocks[t] < TWO32
  {
    HeaderUpTo(b, blocks, |blocks|)
  }

  lemma {:induction false} HeaderReadsBack(b: Block, blocks: seq<nat>, k: nat)
    requires k <= |blocks| < WORDS - 1
    requires forall t | 0 <= t < |blocks| :: blocks[t] < TWO32
    ensures HeaderN(HeaderUpTo(b, blocks, k)) == |blocks|
    ensures forall t | 0 <= t < k :: Word(HeaderUpTo(b, blocks, k), 1 + t) == blocks[t]
  {
    if k == 0 {
      SetWordThenWord(b, 0, |blocks|, 0);
    } else {
      HeaderReadsBack(b, blocks, k - 1);
      var h := HeaderUpTo(b, blocks, k - 1);
      SetWordThenWord(h, k, blocks[k - 1], 0);
      forall t | 0 <= t < k ensures Word(HeaderUpTo(b, blocks, k), 1 + t) == blocks[t] {
        SetWordThenWord(h, k, blocks[k - 1], 1 + t);
      }
    }
  }

  /** The block numbers a header block lists. */
  ghost function Listed(b: Block): (r: seq<nat>)
    requires 0 <= HeaderN(b) < WORDS - 1
  {
    Entries(b, HeaderN(b))
  }

  ghost function Entries(b: Block, k: nat): (r: seq<nat>)
    requires k < WORDS - 1
    ensures |r| == k && forall i | 0 <= i < k :: r[i] == Word(b, 1 + i)
  {
    if k == 0 then [] else Entries(b, k - 1) + [Word(b, k)]
  }

  ghost predicate DiskOk(l: Layout, d: seq<Block>)
  {
    && LayoutOk(l) && |d| == l.blocks
    && 0 <= HeaderN(d[l.start]) <= Capacity(l)
    && Loggable(l, Listed(d[l.start]))
  }

  ghost predicate Clean(l: Layout, d: seq<Block>)
  {
    DiskOk(l, d) && HeaderN(d[l.start]) == 0
  }

  // ----- block writes -----

  ghost function Apply(d: seq<Block>, ws: seq<Write>): (r: seq<Block>)
    ensures |r| == |d|
  {
    if |ws| == 0 then d
    else
      var p, w := Apply(d, ws[..|ws| - 1]), ws[|ws| - 1];
      if w.blockno < |d| then p[w.blockno := w.data] else p
  }

  lemma {:induction false} ApplyConcat(d: seq<Block>, u: seq<Write>, v: seq<Write>)
    ensures Apply(d, u + v) == Apply(Apply(d, u), v)
    decreases |v|
  {
    if |v| == 0 {
      assert u + v == u;
    } else {
      ApplyConcat(d, u, v[..|v| - 1]);
      assert (u + v)[..|u + v| - 1] == u + v[..|v| - 1];
    }
  }

  ghost function Puts(blocks: seq<nat>, data: seq<Block>): seq<Write>
    requires |blocks| == |data|
  {
    seq(|blocks|, t requires 0 <= t < |blocks| => Write(blocks[t], data[t]))
  }

  /** e is d with the first k of the blocks overwritten. */
  ghost predicate Put(d: seq<Block>, e: seq<Block>, blocks: seq<nat>, data: seq<Block>, k: nat)
    requires k <= |blocks| == |data|
  {
    && |e| == |d|
    && (forall t | 0 <= t < k :: blocks[t] < |e| && e[blocks[t]] == data[t])
    && (forall b | 0 <= b < |d| && b !in blocks[..k] :: e[b] == d[b])
  }

  lemma {:induction false} PutsEffect(d: seq<Block>, blocks: seq<nat>, data: seq<Block>, k: nat)
    requires k <= |blocks| == |data| && Distinct(blocks)
    requires forall t | 0 <= t < |blocks| :: blocks[t] < |d|
    ensures Put(d, Apply(d, Puts(blocks, data)[..k]), blocks, data, k)
  {
    if k > 0 {
      PutsEffect(d, blocks, data, k - 1);
      var ws := Puts(blocks, data);
      assert ws[..k][..k - 1] == ws[..k - 1];
      assert blocks[..k] == blocks[..k - 1] + [blocks[k - 1]];
    }
  }

  lemma PutsAll(d: seq<Block>, blocks: seq<nat>, data: seq<Block>)
    requires |blocks| == |data| && Distinct(blocks)
    requires forall t | 0 <= t < |blocks| :: blocks[t] < |d|
    ensures Put(d, Apply(d, Puts(blocks, data)), blocks, data, |blocks|)
  {
    PutsEffect(d, blocks, data, |blocks|);
    assert Puts(blocks, data)[..|blocks|] == Puts(blocks, data);
  }

  // ----- recovery -----

  ghost function LogData(l: Layout, d: seq<Block>): seq<Block>
    requires DiskOk(l, d)
  {
    d[l.start + 1..l.start + 1 + HeaderN(d[l.start])]
  }

  /** What recover_from_log writes: the listed blocks to their homes, then a cleared header. */
  ghost function RecoveryWrites(l: Layout, d: seq<Block>): seq<Write>
    requires DiskOk(l, d)
  {
    Puts(Listed(d[l.start]), LogData(l, d)) + [Write(l.start, SetWord(d[l.start], 0, 0))]
  }

  ghost function Recovered(l: Layout, d: seq<Block>): seq<Block>
    requires DiskOk(l, d)
  {
    Apply(d, RecoveryWrites(l, d))
  }

  /** The file system a disk stands for: its home blocks after recovery. */
  ghost function Contents(l: Layout, d: seq<Block>): map<nat, Block>
    requires DiskOk(l, d)
  {
    map b | 0 <= b < l.blocks && Home(l, b) :: Recovered(l, d)[b]
  }

  /** A disk state d' whose header and log area are those of d. */
  ghost predicate SameLog(l: Layout, d: seq<Block>, d': seq<Block>)
    requires DiskOk(l, d)
  {
    |d'| == |d| && forall b | l.start <= b <= l.start + HeaderN(d[l.start]) :: d'[b] == d[b]
  }

  lemma ApplyOne(d: seq<Block>, ws: seq<Write>, w: Write)
    requires w.blockno < |d|
    ensures Apply(d, ws + [w]) == Apply(d, ws)[w.blockno := w.data]
  {
    assert (ws + [w])[..|ws + [w]| - 1] == ws;
  }

  lemma RecoveredAt(l: Layout, d: seq<Block>)
    requires DiskOk(l, d)
    ensures var ls, r := Listed(d[l.start]), Recovered(l, d);
            && HeaderN(r[l.start]) == 0
            && (forall t | 0 <= t < |ls| :: r[ls[t]] == LogData(l, d)[t])
            && (forall b | 0 <= b < |d| && b != l.start && b !in ls :: r[b] == d[b])
  {
    var ls, data, h := Listed(d[l.start]), LogData(l, d), SetWord(d[l.start], 0, 0);
    SetWordThenWord(d[l.start], 0, 0, 0);
    PutsAll(d, ls, data);
    ApplyOne(d, Puts(ls, data), Write(l.start, h));
    InstalledAt(l, d, Apply(d, Puts(ls, data)), h);
  }

  lemma InstalledAt(l: Layout, d: seq<Block>, e: seq<Block>, h: Block)
    requires DiskOk(l, d)
    requires Put(d, e, Listed(d[l.start]), LogData(l, d), HeaderN(d[l.start]))
    ensures var ls, r := Listed(d[l.start]), e[l.start := h];
            && (forall t | 0 <= t < |ls| :: r[ls[t]] == LogData(l, d)[t])
            && (forall b | 0 <= b < |d| && b != l.start && b !in ls :: r[b] == d[b])
  {
    var ls := Listed(d[l.start]);
    assert ls[..|ls|] == ls;
    assert forall t | 0 <= t < |ls| :: Home(l, ls[t]);
  }

  lemma ContentsOf(l: Layout, d: seq<Block>)
    requires DiskOk(l, d)
    ensures var ls := Listed(d[l.start]);
            && (forall t | 0 <= t < |ls| :: Contents(l, d)[ls[t]] == LogData(l, d)[t])
            && (forall b | 0 <= b < l.blocks && Home(l, b) && b !in ls :: Contents(l, d)[b] == d[b])
  {
    RecoveredAt(l, d);
    var ls := Listed(d[l.start]);
    assert forall t | 0 <= t < |ls| :: Home(l, ls[t]);
  }

  lemma AgreeOnAndOff(m: map<nat, Block>, m': map<nat, Block>, ls: seq<nat>)
    requires m.Keys == m'.Keys
    requires forall t | 0 <= t < |ls| :: ls[t] in m && m[ls[t]] == m'[ls[t]]
    requires forall b | b in m && b !in ls :: m[b] == m'[b]
    ensures m == m'
  {
    forall b | b in m ensures m[b] == m'[b] {
      if b in ls {
        var t :| 0 <= t < |ls| && ls[t] == b;
      }
    }
  }

  /** Two disks with equal listed blocks, equal log data and equal other homes mean the same. */
  lemma SameContents(l: Layout, d: seq<Block>, e: seq<Block>)
    requires DiskOk(l, d) && SameLog(l, d, e)
    requires forall b | 0 <= b < l.blocks && Home(l, b) && b !in Listed(d[l.start]) :: e[b] == d[b]
    ensures DiskOk(l, e) && Contents(l, e) == Contents(l, d)
  {
    ContentsOf(l, d);
    ContentsOf(l, e);
    assert LogData(l, e) == LogData(l, d);
    AgreeOnAndOff(Contents(l, e), Contents(l, d), Listed(d[l.start]));
  }

  /** Crashing at any point inside recovery, and so any number of times, changes nothing. */
  lemma RecoveryCrash(l: Layout, d: seq<Block>, k: nat)
    requires DiskOk(l, d) && k <= |RecoveryWrites(l, d)|
    ensures var e := Apply(d, RecoveryWrites(l, d)[..k]);
            && DiskOk(l, e) && Contents(l, e) == Contents(l, d)
            && (k == |RecoveryWrites(l, d)| ==> Clean(l, e))
  {
    var ls, data := Listed(d[l.start]), LogData(l, d);
    var ws := RecoveryWrites(l, d);
    if k <= |ls| {
      assert ws[..k] == Puts(ls, data)[..k];
      PutsEffect(d, ls, data, k);
      PartlyInstalled(l, d, Apply(d, ws[..k]), k);
    } else {
      assert ws[..k] == ws;
      RecoveredIsClean(l, d);
    }
  }

  lemma PartlyInstalled(l: Layout, d: seq<Block>, e: seq<Block>, k: nat)
    requires DiskOk(l, d) && k <= HeaderN(d[l.start]) && Put(d, e, Listed(d[l.start]), LogData(l, d), k)
    ensures DiskOk(l, e) && Contents(l, e) == Contents(l, d) && e[l.start] == d[l.start]
  {
    var ls := Listed(d[l.start]);
    assert forall b | b in ls[..k] :: b in ls && Home(l, b);
    SameContents(l, d, e);
  }

  lemma RecoveredIsClean(l: Layout, d: seq<Block>)
    requires DiskOk(l, d)
    ensures Clean(l, Recovered(l, d)) && Contents(l, Recovered(l, d)) == Contents(l, d)
  {
    RecoveredAt(l, d);
    CleanContents(l, Recovered(l, d));
  }

  lemma CleanContents(l: Layout, e: seq<Block>)
    requires LayoutOk(l) && |e| == l.blocks && HeaderN(e[l.start]) == 0
    ensures Clean(l, e)
    ensures Contents(l, e) == map b | 0 <= b < l.blocks && Home(l, b) :: e[b]
  {
    assert Listed(e[l.start]) == [];
    ContentsOf(l, e);
  }

  // ----- commit -----

  /** The first part of a commit: the data, block by block, to the slots after the header. */
  ghost function LogWrites(l: Layout, data: seq<Block>): seq<Write>
  {
    seq(|data|, t requires 0 <= t < |data| => Write(l.start + 1 + t, data[t]))
  }

  ghost function Splice(d: seq<Block>, at: nat, data: seq<Block>): (r: seq<Block>)
    requires at + |data| <= |d|
    ensures |r| == |d|
  {
    d[..at] + data + d[at + |data|..]
  }

  lemma {:induction false} LogWritesEffect(l: Layout, d: seq<Block>, data: seq<Block>, k: nat)
    requires l.start + 1 + |data| <= |d| && k <= |data|
    ensures Apply(d, LogWrites(l, data)[..k]) == Splice(d, l.start + 1, data[..k])
  {
    var ws := LogWrites(l, data);
    if k == 0 {
      assert ws[..0] == [];
    } else {
      LogWritesEffect(l, d, data, k - 1);
      assert ws[..k] == ws[..k - 1] + [ws[k - 1]];
      ApplyOne(d, ws[..k - 1], ws[k - 1]);
      hide Apply, LogWrites;
      assert data[..k] == data[..k - 1] + [data[k - 1]];
    }
  }

  lemma AllLogWrites(l: Layout, d: seq<Block>, data: seq<Block>)
    requires l.start + 1 + |data| <= |d|
    ensures Apply(d, LogWrites(l, data)) == Splice(d, l.start + 1, data)
  {
    LogWritesEffect(l, d, data, |data|);
    assert LogWrites(l, data)[..|data|] == LogWrites(l, data) && data[..|data|] == data;
  }

  /** What commit writes: the data to the log, the header, the data to its homes, and a cleared
      header. A transaction that logged nothing writes nothing. */
  ghost function CommitWrites(l: Layout, d: seq<Block>, tx: Tx): seq<Write>
    requires LayoutOk(l) && |d| == l.blocks && TxOk(l, tx)
  {
    if |tx.blocks| == 0 then [] else
      var h := Header(d[l.start], tx.blocks);
      LogWrites(l, tx.data) + [Write(l.start, h)]
      + Puts(tx.blocks, tx.data) + [Write(l.start, SetWord(h, 0, 0))]
  }

  ghost function After(m: map<nat, Block>, tx: Tx): map<nat, Block>
    requires |tx.blocks| == |tx.data|
    decreases |tx.blocks|
  {
    var n := |tx.blocks|;
    if n == 0 then m
    else After(m, Tx(tx.blocks[..n - 1], tx.data[..n - 1]))[tx.blocks[n - 1] := tx.data[n - 1]]
  }

  lemma {:induction false} AfterAt(m: map<nat, Block>, tx: Tx)
    requires |tx.blocks| == |tx.data| && Distinct(tx.blocks)
    requires forall t | 0 <= t < |tx.blocks| :: tx.blocks[t] in m
    ensures After(m, tx).Keys == m.Keys
    ensures forall t | 0 <= t < |tx.blocks| :: After(m, tx)[tx.blocks[t]] == tx.data[t]
    ensures forall b | b in m && b !in tx.blocks :: After(m, tx)[b] == m[b]
    decreases |tx.blocks|
  {
    var n := |tx.blocks|;
    if n > 0 {
      var tx' := Tx(tx.blocks[..n - 1], tx.data[..n - 1]);
      AfterAt(m, tx');
      assert forall b | b !in tx.blocks :: b !in tx'.blocks && b != tx.blocks[n - 1];
      assert forall t | 0 <= t < n - 1 :: tx'.blocks[t] == tx.blocks[t] && tx'.data[t] == tx.data[t];
    }
  }

  lemma AfterIs(m: map<nat, Block>, tx: Tx, m': map<nat, Block>)
    requires |tx.blocks| == |tx.data| && Distinct(tx.blocks)
    requires m.Keys == m'.Keys
    requires forall t | 0 <= t < |tx.blocks| :: tx.blocks[t] in m && m'[tx.blocks[t]] == tx.data[t]
    requires forall b | b in m && b !in tx.blocks :: m'[b] == m[b]
    ensures m' == After(m, tx)
  {
    AfterAt(m, tx);
    AgreeOnAndOff(m', After(m, tx), tx.blocks);
  }

  /** Log data is being written: nothing has changed yet. */
  lemma CrashInLogWrites(l: Layout, d: seq<Block>, data: seq<Block>)
    requires Clean(l, d) && |data| <= Capacity(l)
    ensures var e := Splice(d, l.start + 1, data); Clean(l, e) && Contents(l, e) == Contents(l, d)
  {
    hide Word;
    CleanContents(l, d);
    CleanContents(l, Splice(d, l.start + 1, data));
  }

  /** The log data is on disk; the header alone turns the old contents into the new. */
  lemma HeaderCommits(l: Layout, d: seq<Block>, tx: Tx, h: Block)
    requires Clean(l, d) && TxOk(l, tx) && HeaderN(h) == |tx.blocks| && Listed(h) == tx.blocks
    ensures var f := Splice(d, l.start + 1, tx.data)[l.start := h];
            && DiskOk(l, f) && f[l.start] == h && LogData(l, f) == tx.data
            && Contents(l, f) == After(Contents(l, d), tx)
  {
    hide Word, HeaderN, Contents, Distinct;
    var f := Splice(d, l.start + 1, tx.data)[l.start := h];
    assert LogData(l, f) == tx.data;
    OverlayIsAfter(l, d, f, tx);
  }

  lemma OverlayIsAfter(l: Layout, d: seq<Block>, e: seq<Block>, tx: Tx)
    requires Clean(l, d) && DiskOk(l, e) && TxOk(l, tx)
    requires Listed(e[l.start]) == tx.blocks && LogData(l, e) == tx.data
    requires forall b | 0 <= b < l.blocks && Home(l, b) :: e[b] == d[b]
    ensures Contents(l, e) == After(Contents(l, d), tx)
  {
    CleanContents(l, d);
    ContentsOf(l, e);
    var m, m' := Contents(l, e), Contents(l, d);
    assert m.Keys == m'.Keys;
    forall b | b in m && b !in tx.blocks ensures m[b] == m'[b] {
      assert Home(l, b) && m[b] == e[b];
    }
    AfterIs(m', tx, m);
  }

  /** Erasing the header of an installed transaction changes no contents. */
  lemma ErasedAfterInstall(l: Layout, e: seq<Block>, f: seq<Block>, h: Block)
    requires DiskOk(l, e) && HeaderN(h) == 0
    requires Put(e, f, Listed(e[l.start]), LogData(l, e), HeaderN(e[l.start]))
    ensures Clean(l, f[l.start := h]) && Contents(l, f[l.start := h]) == Contents(l, e)
  {
    hide Word, Signed;
    var ls, g := Listed(e[l.start]), f[l.start := h];
    assert ls[..|ls|] == ls;
    CleanContents(l, g);
    ContentsOf(l, e);
    forall b | 0 <= b < l.blocks && Home(l, b) && b !in ls ensures Contents(l, g)[b] == Contents(l, e)[b] {
      assert f[b] == e[b];
    }
    forall t | 0 <= t < |ls| ensures Contents(l, g)[ls[t]] == Contents(l, e)[ls[t]] {
      assert Home(l, ls[t]);
    }
    AgreeOnAndOff(Contents(l, g), Contents(l, e), ls);
  }

  lemma HeaderLists(b: Block, blocks: seq<nat>)
    requires |blocks| < WORDS - 1
    requires forall t | 0 <= t < |blocks| :: blocks[t] < TWO32
    ensures HeaderN(Header(b, blocks)) == |blocks| && Listed(Header(b, blocks)) == blocks
    ensures HeaderN(SetWord(Header(b, blocks), 0, 0)) == 0
  {
    HeaderReadsBack(b, blocks, |blocks|);
    SetWordThenWord(Header(b, blocks), 0, 0, 0);
  }

  /** Commit is all or nothing: whatever prefix of its writes reached the disk, recovery finds the
      old contents if the header is not among them and the whole transaction if it is. */
  lemma CommitCrash(l: Layout, d: seq<Block>, tx: Tx, k: nat)
    requires Clean(l, d) && TxOk(l, tx) && k <= |CommitWrites(l, d, tx)|
    ensures var e := Apply(d, CommitWrites(l, d, tx)[..k]);
            && DiskOk(l, e)
            && Contents(l, e) == (if k <= |tx.blocks| then Contents(l, d) else After(Contents(l, d), tx))
            && (k == |CommitWrites(l, d, tx)| ==> Clean(l, e))
  {
    var n := |tx.blocks|;
    var ws := CommitWrites(l, d, tx);
    if n == 0 {
      assert ws[..k] == [];
    } else if k <= n {
      assert ws[..k] == LogWrites(l, tx.data)[..k];
      LogWritesEffect(l, d, tx.data, k);
      CrashInLogWrites(l, d, tx.data[..k]);
    } else {
      CommitCrashLate(l, d, tx, k);
    }
  }

  /** The disk once log data and header are written. */
  ghost function Logged(l: Layout, d: seq<Block>, tx: Tx): seq<Block>
    requires LayoutOk(l) && |d| == l.blocks && TxOk(l, tx)
  {
    Splice(d, l.start + 1, tx.data)[l.start := Header(d[l.start], tx.blocks)]
  }

  lemma LoggedMeans(l: Layout, d: seq<Block>, tx: Tx)
    requires Clean(l, d) && TxOk(l, tx)
    ensures var e := Logged(l, d, tx);
            && DiskOk(l, e) && Listed(e[l.start]) == tx.blocks && LogData(l, e) == tx.data
            && Contents(l, e) == After(Contents(l, d), tx)
  {
    hide Word, SetWord, Header, Splice, Contents, After, Distinct, LogData, Listed, HeaderN;
    assert forall t | 0 <= t < |tx.blocks| :: Home(l, tx.blocks[t]);
    HeaderLists(d[l.start], tx.blocks);
    HeaderCommits(l, d, tx, Header(d[l.start], tx.blocks));
  }

  lemma CommitPrefix(l: Layout, d: seq<Block>, tx: Tx, k: nat)
    requires LayoutOk(l) && |d| == l.blocks && TxOk(l, tx) && 0 < |tx.blocks| < k <= |CommitWrites(l, d, tx)|
    ensures var n, e, h := |tx.blocks|, Logged(l, d, tx), Header(d[l.start], tx.blocks);
            Apply(d, CommitWrites(l, d, tx)[..k]) ==
              if k <= 2 * n + 1 then Apply(e, Puts(tx.blocks, tx.data)[..k - n - 1])
              else Apply(e, Puts(tx.blocks, tx.data))[l.start := SetWord(h, 0, 0)]
  {
    hide Header, SetWord, Apply, Splice, Distinct;
    var n, h := |tx.blocks|, Header(d[l.start], tx.blocks);
    assert forall t | 0 <= t < n :: Home(l, tx.blocks[t]);
    var a, b, c := LogWrites(l, tx.data), Puts(tx.blocks, tx.data), Write(l.start, SetWord(h, 0, 0));
    AllLogWrites(l, d, tx.data);
    FourParts(d, a, Write(l.start, h), b, c, k);
  }

  lemma FourParts(d: seq<Block>, a: seq<Write>, h: Write, b: seq<Write>, c: Write, k: nat)
    requires |a| < k <= |a| + |b| + 2 && h.blockno < |d| && c.blockno < |d|
    ensures var e := Apply(d, a)[h.blockno := h.data];
            Apply(d, (a + [h] + b + [c])[..k]) ==
              if k <= |a| + |b| + 1 then Apply(e, b[..k - |a| - 1]) else Apply(e, b)[c.blockno := c.data]
  {
    hide Apply;
    var ah, ws := a + [h], a + [h] + b + [c];
    ApplyOne(d, a, h);
    if k <= |a| + |b| + 1 {
      assert ws[..k] == ah + b[..k - |a| - 1];
      ApplyConcat(d, ah, b[..k - |a| - 1]);
    } else {
      assert ws[..k] == (ah + b) + [c];
      ApplyConcat(d, ah, b);
      ApplyOne(d, ah + b, c);
    }
  }

  lemma InstallCrash(l: Layout, e: seq<Block>, tx: Tx, j: nat)
    requires DiskOk(l, e) && TxOk(l, tx) && Listed(e[l.start]) == tx.blocks && LogData(l, e) == tx.data
    requires j <= |tx.blocks|
    ensures var f := Apply(e, Puts(tx.blocks, tx.data)[..j]);
            DiskOk(l, f) && Contents(l, f) == Contents(l, e)
  {
    PutsEffect(e, tx.blocks, tx.data, j);
    PartlyInstalled(l, e, Apply(e, Puts(tx.blocks, tx.data)[..j]), j);
  }

  lemma InstallErase(l: Layout, e: seq<Block>, tx: Tx, h: Block)
    requires DiskOk(l, e) && TxOk(l, tx) && Listed(e[l.start]) == tx.blocks && LogData(l, e) == tx.data
    requires HeaderN(h) == 0
    ensures var f := Apply(e, Puts(tx.blocks, tx.data))[l.start := h];
            Clean(l, f) && Contents(l, f) == Contents(l, e)
  {
    PutsAll(e, tx.blocks, tx.data);
    ErasedAfterInstall(l, e, Apply(e, Puts(tx.blocks, tx.data)), h);
  }

  lemma CommitCrashLate(l: Layout, d: seq<Block>, tx: Tx, k: nat)
    requires Clean(l, d) && TxOk(l, tx) && 0 < |tx.blocks| < k <= |CommitWrites(l, d, tx)|
    ensures var e := Apply(d, CommitWrites(l, d, tx)[..k]);
            && DiskOk(l, e) && Contents(l, e) == After(Contents(l, d), tx)
            && (k == |CommitWrites(l, d, tx)| ==> Clean(l, e))
  {
    hide Word, SetWord, Splice, HeaderUpTo, Contents, Apply, Distinct;
    LoggedMeans(l, d, tx);
    CommitPrefix(l, d, tx, k);
    if k <= 2 * |tx.blocks| + 1 {
      InstallCrash(l, Logged(l, d, tx), tx, k - |tx.blocks| - 1);
    } else {
      HeaderLists(d[l.start], tx.blocks);
      InstallErase(l, Logged(l, d, tx), tx, SetWord(Header(d[l.start], tx.blocks), 0, 0));
    }
  }
}
