/** Whole lives of a machine: boot, recover, commit any transactions, lose power after any block
    write, boot again. */
module CrashRuns {
  import opened Blocks
  import opened BufferCache
  import opened LogRecovery

  ghost predicate TxsOk(l: Layout, txs: seq<Tx>)
  {
    forall i | 0 <= i < |txs| :: TxOk(l, txs[i]) && |txs[i].blocks| > 0
  }

  /** Every block write between two power failures: recovery, then one commit after another. */
  ghost function LifeWrites(l: Layout, d: seq<Block>, txs: seq<Tx>): seq<Write>
    requires DiskOk(l, d) && TxsOk(l, txs)
  {
    if |txs| == 0 then RecoveryWrites(l, d)
    else
      var p := LifeWrites(l, d, txs[..|txs| - 1]);
      p + CommitWrites(l, Apply(d, p), txs[|txs| - 1])
  }

  ghost function AfterAll(m: map<nat, Block>, txs: seq<Tx>): map<nat, Block>
    requires forall i | 0 <= i < |txs| :: |txs[i].blocks| == |txs[i].data|
  {
    if |txs| == 0 then m else After(AfterAll(m, txs[..|txs| - 1]), txs[|txs| - 1])
  }

  /** A header write that lists at least one block. */
  ghost predicate CommitPoint(l: Layout, w: Write)
  {
    w.blockno == l.start && HeaderN(w.data) > 0
  }

  /** How many commit points there are among the writes. */
  ghost function Commits(l: Layout, ws: seq<Write>): nat
  {
    if |ws| == 0 then 0
    else Commits(l, ws[..|ws| - 1]) + if CommitPoint(l, ws[|ws| - 1]) then 1 else 0
  }

  lemma {:induction false} CommitsConcat(l: Layout, u: seq<Write>, v: seq<Write>)
    ensures Commits(l, u + v) == Commits(l, u) + Commits(l, v)
    decreases |v|
  {
    if |v| == 0 {
      assert u + v == u;
    } else {
      CommitsConcat(l, u, v[..|v| - 1]);
      assert (u + v)[..|u + v| - 1] == u + v[..|v| - 1];
    }
  }

  lemma {:induction false} NoCommits(l: Layout, ws: seq<Write>)
    requires forall i | 0 <= i < |ws| :: !CommitPoint(l, ws[i])
    ensures Commits(l, ws) == 0
  {
    if |ws| > 0 { NoCommits(l, ws[..|ws| - 1]); }
  }

  lemma OneCommit(l: Layout, ws: seq<Write>, i: nat)
    requires i < |ws|
    requires forall j | 0 <= j < |ws| :: CommitPoint(l, ws[j]) <==> j == i
    ensures Commits(l, ws) == 1
  {
    NoCommits(l, ws[..i]);
    NoCommits(l, ws[i + 1..]);
    CommitsConcat(l, ws[..i], [ws[i]]);
    assert [ws[i]][..0] == [];
    CommitsConcat(l, ws[..i] + [ws[i]], ws[i + 1..]);
    assert ws == ws[..i] + [ws[i]] + ws[i + 1..];
  }

  /** The only commit point of a commit is its first header write. */
  lemma CommitWritesPoints(l: Layout, d: seq<Block>, tx: Tx, j: nat)
    requires LayoutOk(l) && |d| == l.blocks && TxOk(l, tx) && j < |CommitWrites(l, d, tx)|
    ensures CommitPoint(l, CommitWrites(l, d, tx)[j]) <==> j == |tx.blocks|
  {
    hide Word, SetWord, HeaderUpTo;
    var n := |tx.blocks|;
    var ws, h := CommitWrites(l, d, tx), Header(d[l.start], tx.blocks);
    HeaderLists(d[l.start], tx.blocks);
    if j < n {
      assert ws[j] == Write(l.start + 1 + j, tx.data[j]);
    } else if j == n {
      assert ws[j] == Write(l.start, h);
    } else if j <= 2 * n {
      assert ws[j] == Write(tx.blocks[j - n - 1], tx.data[j - n - 1]);
      assert Home(l, tx.blocks[j - n - 1]);
    } else {
      assert ws[j] == Write(l.start, SetWord(h, 0, 0));
    }
  }

  lemma CommitCount(l: Layout, d: seq<Block>, tx: Tx, k: nat)
    requires LayoutOk(l) && |d| == l.blocks && TxOk(l, tx) && k <= |CommitWrites(l, d, tx)|
    ensures Commits(l, CommitWrites(l, d, tx)[..k]) == if k > |tx.blocks| then 1 else 0
  {
    var ws := CommitWrites(l, d, tx);
    forall j | 0 <= j < k ensures CommitPoint(l, ws[..k][j]) <==> j == |tx.blocks| {
      CommitWritesPoints(l, d, tx, j);
    }
    if k > |tx.blocks| {
      OneCommit(l, ws[..k], |tx.blocks|);
    } else {
      NoCommits(l, ws[..k]);
    }
  }

  lemma RecoveryCount(l: Layout, d: seq<Block>, k: nat)
    requires DiskOk(l, d) && k <= |RecoveryWrites(l, d)|
    ensures Commits(l, RecoveryWrites(l, d)[..k]) == 0
  {
    hide Word, SetWord;
    var ls, ws := Listed(d[l.start]), RecoveryWrites(l, d);
    SetWordThenWord(d[l.start], 0, 0, 0);
    forall j | 0 <= j < k ensures !CommitPoint(l, ws[..k][j]) {
      if j < |ls| {
        assert ws[j] == Write(ls[j], LogData(l, d)[j]) && Home(l, ls[j]);
      }
    }
    NoCommits(l, ws[..k]);
  }

  /** Crash atomicity. Power fails after any prefix of the block writes of any life; recovery then
      finds the contents left by exactly as many whole transactions as there are commit points
      among the writes that reached the disk. */
  lemma {:induction false} LifeCrash(l: Layout, d: seq<Block>, txs: seq<Tx>, k: nat)
    requires DiskOk(l, d) && TxsOk(l, txs) && k <= |LifeWrites(l, d, txs)|
    ensures var ws := LifeWrites(l, d, txs);
            var e, c := Apply(d, ws[..k]), Commits(l, ws[..k]);
            && DiskOk(l, e) && c <= |txs|
            && Contents(l, e) == AfterAll(Contents(l, d), txs[..c])
            && (k == |ws| ==> Clean(l, e) && c == |txs|)
    decreases |txs|
  {
    hide Contents, Clean, DiskOk, RecoveryWrites, CommitWrites, After, Apply;
    var ws, m := LifeWrites(l, d, txs), |txs|;
    if m == 0 {
      RecoveryCrash(l, d, k);
      RecoveryCount(l, d, k);
    } else {
      var init := txs[..m - 1];
      var p := LifeWrites(l, d, init);
      if k < |p| {
        LifeCrash(l, d, init, k);
        assert ws[..k] == p[..k];
        assert txs[..Commits(l, ws[..k])] == init[..Commits(l, ws[..k])];
      } else {
        LifeCrash(l, d, init, |p|);
        assert p[..|p|] == p && init[..m - 1] == init;
        LastCommit(l, d, txs, p, k - |p|);
      }
    }
  }

  lemma LastCommit(l: Layout, d: seq<Block>, txs: seq<Tx>, p: seq<Write>, j: nat)
    requires DiskOk(l, d) && TxsOk(l, txs) && |txs| > 0
    requires var e := Apply(d, p);
             && Clean(l, e) && Commits(l, p) == |txs| - 1
             && Contents(l, e) == AfterAll(Contents(l, d), txs[..|txs| - 1])
             && j <= |CommitWrites(l, e, txs[|txs| - 1])|
    ensures var cw := CommitWrites(l, Apply(d, p), txs[|txs| - 1]);
            var ws := p + cw;
            var f, c := Apply(d, ws[..|p| + j]), Commits(l, ws[..|p| + j]);
            && DiskOk(l, f) && c <= |txs|
            && Contents(l, f) == AfterAll(Contents(l, d), txs[..c])
            && (j == |cw| ==> Clean(l, f) && c == |txs|)
  {
    hide Contents, After, Apply, Commits, HeaderN, Listed, Header;
    var m := |txs|;
    var e, tx := Apply(d, p), txs[m - 1];
    var cw := CommitWrites(l, e, tx);
    assert (p + cw)[..|p| + j] == p + cw[..j];
    ApplyConcat(d, p, cw[..j]);
    CommitsConcat(l, p, cw[..j]);
    CommitCrash(l, e, tx, j);
    CommitCount(l, e, tx, j);
    assert txs[..m] == txs;
  }

  // ----- any number of lives -----

  /** One life: the transactions it would commit and the number of block writes before power fails. */
  datatype Life = Life(txs: seq<Tx>, cut: nat)

  ghost predicate LivesOk(l: Layout, d: seq<Block>, lives: seq<Life>)
    requires DiskOk(l, d)
    decreases |lives|
  {
    |lives| == 0 ||
    var x := lives[0];
    && TxsOk(l, x.txs) && x.cut <= |LifeWrites(l, d, x.txs)|
    && (LifeCrash(l, d, x.txs, x.cut); LivesOk(l, Apply(d, LifeWrites(l, d, x.txs)[..x.cut]), lives[1..]))
  }

  ghost function DiskAfter(l: Layout, d: seq<Block>, lives: seq<Life>): seq<Block>
    requires DiskOk(l, d) && LivesOk(l, d, lives)
    decreases |lives|
  {
    if |lives| == 0 then d
    else
      LifeCrash(l, d, lives[0].txs, lives[0].cut);
      DiskAfter(l, Apply(d, LifeWrites(l, d, lives[0].txs)[..lives[0].cut]), lives[1..])
  }

  /** The transactions whose commit point reached the disk, in order, over all lives. */
  ghost function Survivors(l: Layout, d: seq<Block>, lives: seq<Life>): seq<Tx>
    requires DiskOk(l, d) && LivesOk(l, d, lives)
    decreases |lives|
  {
    if |lives| == 0 then []
    else
      var x := lives[0];
      LifeCrash(l, d, x.txs, x.cut);
      var ws := LifeWrites(l, d, x.txs)[..x.cut];
      x.txs[..Commits(l, ws)] + Survivors(l, Apply(d, ws), lives[1..])
  }

  lemma {:induction false} AfterAllConcat(m: map<nat, Block>, u: seq<Tx>, v: seq<Tx>)
    requires forall i | 0 <= i < |u| :: |u[i].blocks| == |u[i].data|
    requires forall i | 0 <= i < |v| :: |v[i].blocks| == |v[i].data|
    ensures AfterAll(m, u + v) == AfterAll(AfterAll(m, u), v)
    decreases |v|
  {
    if |v| == 0 {
      assert u + v == u;
    } else {
      AfterAllConcat(m, u, v[..|v| - 1]);
      assert (u + v)[..|u + v| - 1] == u + v[..|v| - 1];
    }
  }

  /** Over any number of crashes, wherever they fall, the disk stands for its original contents
      followed by exactly the transactions that reached their commit point. */
  lemma {:induction false} LivesCrash(l: Layout, d: seq<Block>, lives: seq<Life>)
    requires DiskOk(l, d) && LivesOk(l, d, lives)
    ensures DiskOk(l, DiskAfter(l, d, lives)) && TxsOk(l, Survivors(l, d, lives))
    ensures Contents(l, DiskAfter(l, d, lives)) == AfterAll(Contents(l, d), Survivors(l, d, lives))
    decreases |lives|
  {
    hide Contents, Clean, DiskOk, RecoveryWrites, CommitWrites, After, Apply;
    if |lives| > 0 {
      var x := lives[0];
      var ws := LifeWrites(l, d, x.txs)[..x.cut];
      LifeCrash(l, d, x.txs, x.cut);
      LivesCrash(l, Apply(d, ws), lives[1..]);
      AfterAllConcat(Contents(l, d), x.txs[..Commits(l, ws)], Survivors(l, Apply(d, ws), lives[1..]));
    }
  }
}
