/** begin_op, log_write and end_op run by any number of processes in any interleaving. Every action
    below is one critical section of log.lock, except that log_write tests its guards before it
    takes the lock. */
module GroupCommit {

  /** MAXOPBLOCKS, LOGSIZE and sb.nlog. */
  datatype Config = Config(maxop: nat, logsize: nat, size: nat)

  /** Where a process stands. `used` counts its log_write calls. */
  datatype Proc =
    | Outside
    | Asleep                  // in begin_op, sleeping on &log
    | Trying                  // in begin_op, woken up
    | InOp(used: nat)
    | Guarded(used: nat)      // in log_write, past the guards, lock not yet taken
    | Committing              // in commit(), log not yet erased
    | Erased                  // in commit(), lh.n is 0 again
    | Panicked

  datatype State = State(block: seq<nat>, outstanding: int, committing: bool, procs: seq<Proc>)

  datatype Action =
    | Begin(p: nat) | Guard(p: nat) | Append(p: nat, b: nat) | End(p: nat) | Erase(p: nat) | Done(p: nat)

  function Initial(n: nat): State
  {
    State([], 0, false, seq(n, _ => Outside))
  }

  /** wakeup(&log) */
  function Wake(procs: seq<Proc>): (r: seq<Proc>)
    ensures |r| == |procs|
    ensures forall i | 0 <= i < |r| :: r[i] == if procs[i] == Asleep then Trying else procs[i]
  {
    seq(|procs|, i requires 0 <= i < |procs| => if procs[i] == Asleep then Trying else procs[i])
  }

  /** The blocks set aside for n operations. */
  function Reserved(c: Config, n: int): int
  {
    n * c.maxop
  }

  lemma ReservedMore(c: Config, n: int)
    ensures Reserved(c, n + 1) == Reserved(c, n) + c.maxop
  {
  }

  /** One action; an action whose process is not there to take it changes nothing. An operation
      makes at most maxop log_write calls. */
  function Do(c: Config, s: State, a: Action): State
  {
    if a.p >= |s.procs| then s else
    var me := s.procs[a.p];
    match a
    case Begin(p) =>
      if !(me.Outside? || me.Trying?) then s
      else if s.committing || |s.block| + Reserved(c, s.outstanding + 1) > c.logsize then
        s.(procs := s.procs[p := Asleep])
      else s.(outstanding := s.outstanding + 1, procs := s.procs[p := InOp(0)])
    case Guard(p) =>
      if !me.InOp? || me.used >= c.maxop then s
      else if |s.block| >= c.logsize || |s.block| >= c.size - 1 then s.(procs := s.procs[p := Panicked])
      else if s.outstanding < 1 then s.(procs := s.procs[p := Panicked])
      else s.(procs := s.procs[p := Guarded(me.used)])
    case Append(p, b) =>
      if !me.Guarded? then s
      else s.(block := if b in s.block then s.block else s.block + [b], procs := s.procs[p := InOp(me.used + 1)])
    case End(p) =>
      if !me.InOp? then s
      else if s.committing then s.(outstanding := s.outstanding - 1, procs := s.procs[p := Panicked])
      else if s.outstanding == 1 then s.(outstanding := 0, committing := true, procs := s.procs[p := Committing])
      else s.(outstanding := s.outstanding - 1, procs := Wake(s.procs[p := Outside]))
    case Erase(p) =>
      if !me.Committing? then s else s.(block := [], procs := s.procs[p := Erased])
    case Done(p) =>
      if !me.Erased? then s else s.(committing := false, procs := Wake(s.procs[p := Outside]))
  }

  /** An interleaving is any sequence of actions. */
  function Exec(c: Config, s: State, run: seq<Action>): State
  {
    if |run| == 0 then s else Do(c, Exec(c, s, run[..|run| - 1]), run[|run| - 1])
  }

  // ----- counting -----

  ghost function Total(w: Proc -> nat, procs: seq<Proc>): nat
  {
    if |procs| == 0 then 0 else Total(w, procs[..|procs| - 1]) + w(procs[|procs| - 1])
  }

  lemma {:induction false} TotalUpdate(w: Proc -> nat, procs: seq<Proc>, p: nat, x: Proc)
    requires p < |procs|
    ensures Total(w, procs[p := x]) == Total(w, procs) - w(procs[p]) + w(x)
    ensures Total(w, procs) >= w(procs[p])
  {
    var n := |procs| - 1;
    if p < n {
      TotalUpdate(w, procs[..n], p, x);
      assert procs[p := x][..n] == procs[..n][p := x];
    } else {
      assert procs[p := x][..n] == procs[..n];
    }
  }

  lemma {:induction false} TotalWake(w: Proc -> nat, procs: seq<Proc>)
    requires w(Asleep) == w(Trying)
    ensures Total(w, Wake(procs)) == Total(w, procs)
  {
    if |procs| > 0 {
      var n := |procs| - 1;
      TotalWake(w, procs[..n]);
      assert Wake(procs)[..n] == Wake(procs[..n]);
    }
  }

  lemma {:induction false} TotalZero(w: Proc -> nat, procs: seq<Proc>)
    requires forall i | 0 <= i < |procs| :: w(procs[i]) == 0
    ensures Total(w, procs) == 0
  {
    if |procs| > 0 { TotalZero(w, procs[..|procs| - 1]); }
  }

  lemma {:induction false} TwoHolders(w: Proc -> nat, procs: seq<Proc>, p: nat, q: nat)
    requires p < q < |procs|
    ensures Total(w, procs) >= w(procs[p]) + w(procs[q])
  {
    var n := |procs| - 1;
    if q < n { TwoHolders(w, procs[..n], p, q); } else { TotalUpdate(w, procs[..n], p, procs[p]); }
  }

  ghost predicate Active(x: Proc) { x.InOp? || x.Guarded? }

  ghost function Active1(): Proc -> nat { (x: Proc) => if Active(x) then 1 else 0 }

  /** What is left of an operation's reservation. */
  ghost function Unused(maxop: nat): Proc -> nat
  {
    (x: Proc) => if Active(x) && x.used <= maxop then maxop - x.used else 0
  }

  ghost function Commit1(): Proc -> nat { (x: Proc) => if x.Committing? || x.Erased? then 1 else 0 }

  ghost predicate Distinct(s: seq<nat>)
  {
    forall i, j | 0 <= i < j < |s| :: s[i] != s[j]
  }

  // ----- the invariant -----

  ghost predicate Inv(c: Config, s: State)
  {
    && s.outstanding == Total(Active1(), s.procs)
    && Total(Commit1(), s.procs) == (if s.committing then 1 else 0)
    && (s.committing ==> s.outstanding == 0)
    && Distinct(s.block)
    && |s.block| + Total(Unused(c.maxop), s.procs) <= c.logsize
    && (!s.committing && s.outstanding == 0 ==> s.block == [])
    && (forall i | 0 <= i < |s.procs| :: Fine(c, s, s.procs[i]))
  }

  ghost predicate Fine(c: Config, s: State, x: Proc)
  {
    && !x.Panicked?
    && (x.InOp? ==> x.used <= c.maxop)
    && (x.Guarded? ==> x.used < c.maxop)
    && (x.Erased? ==> s.block == [])
    && (x.Asleep? ==> s.committing || |s.block| + Reserved(c, s.outstanding + 1) > c.logsize)
  }

  /** There is room for an operation. The size of the log on disk does not matter here. */
  ghost predicate Sized(c: Config)
  {
    1 <= c.maxop <= c.logsize
  }

  ghost predicate NoPanic(s: State)
  {
    forall i | 0 <= i < |s.procs| :: !s.procs[i].Panicked?
  }

  lemma InitialInv(c: Config, n: nat)
    requires Sized(c)
    ensures Inv(c, Initial(n))
  {
    TotalZero(Active1(), Initial(n).procs);
    TotalZero(Commit1(), Initial(n).procs);
    TotalZero(Unused(c.maxop), Initial(n).procs);
  }

  /** How an update of one process moves the three totals. */
  lemma Moved(c: Config, procs: seq<Proc>, p: nat, x: Proc)
    requires p < |procs|
    ensures Total(Active1(), procs[p := x]) == Total(Active1(), procs) - Active1()(procs[p]) + Active1()(x)
    ensures Total(Commit1(), procs[p := x]) == Total(Commit1(), procs) - Commit1()(procs[p]) + Commit1()(x)
    ensures Total(Unused(c.maxop), procs[p := x])
            == Total(Unused(c.maxop), procs) - Unused(c.maxop)(procs[p]) + Unused(c.maxop)(x)
  {
    TotalUpdate(Active1(), procs, p, x);
    TotalUpdate(Commit1(), procs, p, x);
    TotalUpdate(Unused(c.maxop), procs, p, x);
  }

  lemma Woken(c: Config, procs: seq<Proc>)
    ensures Total(Active1(), Wake(procs)) == Total(Active1(), procs)
    ensures Total(Commit1(), Wake(procs)) == Total(Commit1(), procs)
    ensures Total(Unused(c.maxop), Wake(procs)) == Total(Unused(c.maxop), procs)
  {
    TotalWake(Active1(), procs);
    TotalWake(Commit1(), procs);
    TotalWake(Unused(c.maxop), procs);
  }

  /** Reservations never exceed maxop each. */
  lemma {:induction false} UnusedBound(c: Config, procs: seq<Proc>)
    ensures Total(Unused(c.maxop), procs) <= Total(Active1(), procs) * c.maxop
  {
    if |procs| > 0 {
      var n := |procs| - 1;
      UnusedBound(c, procs[..n]);
      var a, x := Total(Active1(), procs[..n]), Active1()(procs[n]);
      assert (a + x) * c.maxop == a * c.maxop + x * c.maxop;
    }
  }

  lemma BeginInv(c: Config, s: State, p: nat)
    requires Sized(c) && Inv(c, s) && p < |s.procs|
    ensures Inv(c, Do(c, s, Begin(p)))
  {
    assert Fine(c, s, s.procs[p]);
    if s.procs[p].Outside? || s.procs[p].Trying? {
      if s.committing || |s.block| + Reserved(c, s.outstanding + 1) > c.logsize {
        Moved(c, s.procs, p, Asleep);
        hide Total;
        var t := s.(procs := s.procs[p := Asleep]);
        forall i | 0 <= i < |t.procs| ensures Fine(c, t, t.procs[i]) {
          assert Fine(c, s, s.procs[i]);
        }
      } else {
        Granted(c, s, p);
      }
    }
  }

  lemma Granted(c: Config, s: State, p: nat)
    requires Sized(c) && Inv(c, s) && p < |s.procs| && (s.procs[p].Outside? || s.procs[p].Trying?)
    requires !s.committing && |s.block| + Reserved(c, s.outstanding + 1) <= c.logsize
    ensures Inv(c, s.(outstanding := s.outstanding + 1, procs := s.procs[p := InOp(0)]))
  {
    var t := s.(outstanding := s.outstanding + 1, procs := s.procs[p := InOp(0)]);
    Moved(c, s.procs, p, InOp(0));
    UnusedBound(c, s.procs);
    ReservedMore(c, s.outstanding);
    ReservedMore(c, t.outstanding);
    hide Total, Reserved;
    forall i | 0 <= i < |t.procs| ensures Fine(c, t, t.procs[i]) {
      assert Fine(c, s, s.procs[i]);
    }
  }

  /** A process that still has a call left finds room in the header and an operation open: of the
      guards only the one on the size of the log on disk can fire. */
  lemma GuardSilent(c: Config, s: State, p: nat)
    requires Sized(c) && Inv(c, s) && p < |s.procs|
    requires s.procs[p].InOp? && s.procs[p].used < c.maxop
    ensures |s.block| < c.logsize && s.outstanding >= 1
    ensures Do(c, s, Guard(p)).procs[p] == if |s.block| >= c.size - 1 then Panicked else Guarded(s.procs[p].used)
  {
    TotalUpdate(Unused(c.maxop), s.procs, p, Outside);
    TotalUpdate(Active1(), s.procs, p, Outside);
  }

  lemma GuardInv(c: Config, s: State, p: nat)
    requires Sized(c) && Inv(c, s) && p < |s.procs|
    ensures Inv(c, Do(c, s, Guard(p))) || (c.size - 1 <= |s.block| < c.logsize && Do(c, s, Guard(p)).procs[p].Panicked?)
  {
    var t := Do(c, s, Guard(p));
    assert Fine(c, s, s.procs[p]);
    if s.procs[p].InOp? && s.procs[p].used < c.maxop {
      GuardSilent(c, s, p);
      if t.procs[p].Panicked? { return; }
    }
    Moved(c, s.procs, p, t.procs[p]);
    hide Total;
    forall i | 0 <= i < |t.procs| ensures Fine(c, t, t.procs[i]) {
      assert Fine(c, s, s.procs[i]);
    }
  }

  lemma AppendInv(c: Config, s: State, p: nat, b: nat)
    requires Sized(c) && Inv(c, s) && p < |s.procs|
    ensures Inv(c, Do(c, s, Append(p, b)))
  {
    var t := Do(c, s, Append(p, b));
    assert Fine(c, s, s.procs[p]);
    Moved(c, s.procs, p, t.procs[p]);
    TotalUpdate(Active1(), s.procs, p, Outside);
    hide Total;
    if s.procs[p].Guarded? {
      OnlyActive(c, s, p);
      forall i | 0 <= i < |t.procs| ensures Fine(c, t, t.procs[i]) {
        assert Fine(c, s, s.procs[i]);
      }
    }
  }

  /** While an operation is active nobody is in commit. */
  lemma OnlyActive(c: Config, s: State, p: nat)
    requires Inv(c, s) && p < |s.procs| && Active(s.procs[p])
    ensures !s.committing && s.outstanding >= 1
    ensures forall i | 0 <= i < |s.procs| :: !s.procs[i].Committing? && !s.procs[i].Erased?
  {
    TotalUpdate(Active1(), s.procs, p, Outside);
    forall i | 0 <= i < |s.procs| ensures !s.procs[i].Committing? && !s.procs[i].Erased? {
      TotalUpdate(Commit1(), s.procs, i, Outside);
    }
  }

  lemma EndInv(c: Config, s: State, p: nat)
    requires Sized(c) && Inv(c, s) && p < |s.procs|
    ensures Inv(c, Do(c, s, End(p)))
  {
    var t := Do(c, s, End(p));
    if s.procs[p].InOp? {
      OnlyActive(c, s, p);
      if s.outstanding == 1 {
        Moved(c, s.procs, p, Committing);
        hide Total;
        forall i | 0 <= i < |t.procs| ensures Fine(c, t, t.procs[i]) {
          assert Fine(c, s, s.procs[i]);
        }
      } else {
        Moved(c, s.procs, p, Outside);
        Woken(c, s.procs[p := Outside]);
        hide Total;
        forall i | 0 <= i < |t.procs| ensures Fine(c, t, t.procs[i]) {
          assert Fine(c, s, s.procs[i]);
        }
      }
    }
  }

  /** Only the committing process is in commit. */
  lemma OnlyCommitter(c: Config, s: State, p: nat)
    requires Inv(c, s) && p < |s.procs| && (s.procs[p].Committing? || s.procs[p].Erased?)
    ensures s.committing && s.outstanding == 0
    ensures forall i | 0 <= i < |s.procs| && i != p :: !s.procs[i].Committing? && !s.procs[i].Erased?
    ensures forall i | 0 <= i < |s.procs| :: !Active(s.procs[i])
  {
    TotalUpdate(Commit1(), s.procs, p, Outside);
    forall i | 0 <= i < |s.procs| && i != p ensures !s.procs[i].Committing? && !s.procs[i].Erased? {
      TwoHolders(Commit1(), s.procs, if i < p then i else p, if i < p then p else i);
    }
    forall i | 0 <= i < |s.procs| ensures !Active(s.procs[i]) {
      TotalUpdate(Active1(), s.procs, i, Outside);
    }
  }

  lemma EraseInv(c: Config, s: State, p: nat)
    requires Sized(c) && Inv(c, s) && p < |s.procs|
    ensures Inv(c, Do(c, s, Erase(p)))
  {
    var t := Do(c, s, Erase(p));
    if s.procs[p].Committing? {
      OnlyCommitter(c, s, p);
      Moved(c, s.procs, p, Erased);
      hide Total;
      forall i | 0 <= i < |t.procs| ensures Fine(c, t, t.procs[i]) {
        assert Fine(c, s, s.procs[i]);
      }
    }
  }

  lemma DoneInv(c: Config, s: State, p: nat)
    requires Sized(c) && Inv(c, s) && p < |s.procs|
    ensures Inv(c, Do(c, s, Done(p)))
  {
    var t := Do(c, s, Done(p));
    if s.procs[p].Erased? {
      OnlyCommitter(c, s, p);
      assert Fine(c, s, s.procs[p]);
      Moved(c, s.procs, p, Outside);
      Woken(c, s.procs[p := Outside]);
      hide Total;
      forall i | 0 <= i < |t.procs| ensures Fine(c, t, t.procs[i]) {
        assert Fine(c, s, s.procs[i]);
      }
    }
  }

  /** A step keeps the invariant, or it is the size guard that fires. */
  lemma DoInv(c: Config, s: State, a: Action)
    requires Sized(c) && Inv(c, s)
    ensures NoPanic(Do(c, s, a)) ==> Inv(c, Do(c, s, a))
    ensures !NoPanic(Do(c, s, a)) ==> a.Guard? && c.size - 1 <= |s.block| < c.logsize
  {
    hide Total;
    assert NoPanic(s) by { InvNoPanic(c, s); }
    if a.p < |s.procs| {
      match a {
        case Begin(p) => BeginInv(c, s, p);
        case Guard(p) => GuardInv(c, s, p);
        case Append(p, b) => AppendInv(c, s, p, b);
        case End(p) => EndInv(c, s, p);
        case Erase(p) => EraseInv(c, s, p);
        case Done(p) => DoneInv(c, s, p);
      }
      if !a.Guard? { InvNoPanic(c, Do(c, s, a)); }
    }
  }

  lemma InvNoPanic(c: Config, s: State)
    requires Inv(c, s)
    ensures NoPanic(s)
  {
    forall i | 0 <= i < |s.procs| ensures !s.procs[i].Panicked? {
      assert Fine(c, s, s.procs[i]);
    }
  }

  lemma StaysPanicked(c: Config, s: State, a: Action)
    requires !NoPanic(s)
    ensures !NoPanic(Do(c, s, a))
  {
    var i :| 0 <= i < |s.procs| && s.procs[i].Panicked?;
    assert Do(c, s, a).procs[i].Panicked?;
  }

  /** Group commit, over every interleaving of any number of processes, up to a panic: no commit runs
      while an operation is open, logged blocks are distinct, the blocks and the unused reservations
      fit the header array, and whoever sleeps in begin_op has someone left to wake it up. With a log
      on disk longer than LOGSIZE there is no panic; with any other the only one is the guard on its
      size. */
  lemma {:induction false} GroupCommitSafe(c: Config, n: nat, run: seq<Action>)
    requires Sized(c)
    ensures var s := Exec(c, Initial(n), run);
            NoPanic(s) ==>
              && Inv(c, s)
              && |s.block| + Total(Unused(c.maxop), s.procs) <= c.logsize && Distinct(s.block)
              && (s.committing ==> s.outstanding == 0 && forall i | 0 <= i < |s.procs| :: !Active(s.procs[i]))
              && (forall i | 0 <= i < |s.procs| :: s.procs[i].Guarded? ==> |s.block| < c.logsize)
              && (forall i | 0 <= i < |s.procs| :: s.procs[i].Asleep? ==> s.committing || s.outstanding > 0)
    ensures c.size > c.logsize ==> NoPanic(Exec(c, Initial(n), run))
    ensures run != [] && NoPanic(Exec(c, Initial(n), run[..|run| - 1])) && !NoPanic(Exec(c, Initial(n), run)) ==>
              && run[|run| - 1].Guard?
              && c.size - 1 <= |Exec(c, Initial(n), run[..|run| - 1]).block| < c.logsize
    decreases |run|
  {
    hide Inv, Do, NoPanic;
    if |run| == 0 {
      InitialInv(c, n);
      InvNoPanic(c, Initial(n));
    } else {
      var m := |run| - 1;
      var s := Exec(c, Initial(n), run[..m]);
      GroupCommitSafe(c, n, run[..m]);
      if NoPanic(s) {
        DoInv(c, s, run[m]);
      } else {
        StaysPanicked(c, s, run[m]);
      }
    }
    if NoPanic(Exec(c, Initial(n), run)) { InvMeans(c, Exec(c, Initial(n), run)); }
  }

  lemma InvMeans(c: Config, s: State)
    requires Sized(c) && Inv(c, s)
    ensures |s.block| + Total(Unused(c.maxop), s.procs) <= c.logsize && Distinct(s.block)
    ensures s.committing ==> s.outstanding == 0 && forall i | 0 <= i < |s.procs| :: !Active(s.procs[i])
    ensures forall i | 0 <= i < |s.procs| :: s.procs[i].Guarded? ==> |s.block| < c.logsize
    ensures forall i | 0 <= i < |s.procs| :: s.procs[i].Asleep? ==> s.committing || s.outstanding > 0
  {
    forall i | 0 <= i < |s.procs|
      ensures s.committing ==> !Active(s.procs[i])
      ensures s.procs[i].Guarded? ==> |s.block| < c.logsize
      ensures s.procs[i].Asleep? ==> s.committing || s.outstanding > 0
    {
      assert Fine(c, s, s.procs[i]);
      TotalUpdate(Active1(), s.procs, i, Outside);
      TotalUpdate(Unused(c.maxop), s.procs, i, Outside);
    }
  }

  // ----- the size guard, exactly -----

  /** Process 0 has an operation open and made u calls; j blocks are logged, the first j numbers. */
  ghost predicate Opened(s: State, u: nat, j: nat)
  {
    && NoPanic(s) && |s.procs| >= 1 && s.procs[0] == InOp(u) && s.outstanding >= 1 && !s.committing
    && |s.block| == j && forall i | 0 <= i < j :: s.block[i] == i
  }

  /** The same with process 1 at x, and no other operation open. */
  ghost predicate Beside(s: State, u: nat, j: nat, x: Proc)
  {
    Opened(s, u, j) && |s.procs| >= 2 && s.procs[1] == x && s.outstanding == if x.InOp? then 2 else 1
  }

  lemma ExecMore(c: Config, s: State, run: seq<Action>, a: Action)
    ensures Exec(c, s, run + [a]) == Do(c, Exec(c, s, run), a)
  {
    assert (run + [a])[..|run|] == run;
  }

  /** Process p logs block j, which is new. */
  lemma LogOne(c: Config, s: State, p: nat, j: nat)
    requires p < |s.procs| && s.procs[p].InOp? && s.procs[p].used < c.maxop && s.outstanding >= 1
    requires |s.block| == j < c.logsize && j + 1 < c.size && forall i | 0 <= i < j :: s.block[i] == i
    ensures Do(c, Do(c, s, Guard(p)), Append(p, j)) == s.(block := s.block + [j],
                                                          procs := s.procs[p := InOp(s.procs[p].used + 1)])
  {
    assert j !in s.block;
    var t := Do(c, s, Guard(p));
    assert t == s.(procs := s.procs[p := Guarded(s.procs[p].used)]);
    assert t.procs[p := InOp(s.procs[p].used + 1)] == s.procs[p := InOp(s.procs[p].used + 1)];
  }

  lemma LogNext(c: Config, s0: State, run: seq<Action>, p: nat, j: nat) returns (next: seq<Action>)
    requires var s := Exec(c, s0, run);
      && p < |s.procs| && s.procs[p].InOp? && s.procs[p].used < c.maxop && s.outstanding >= 1
      && |s.block| == j < c.logsize && j + 1 < c.size && forall i | 0 <= i < j :: s.block[i] == i
    ensures var s := Exec(c, s0, run);
      Exec(c, s0, next) == s.(block := s.block + [j], procs := s.procs[p := InOp(s.procs[p].used + 1)])
  {
    LogOne(c, Exec(c, s0, run), p, j);
    ExecMore(c, s0, run, Guard(p));
    ExecMore(c, s0, run + [Guard(p)], Append(p, j));
    next := run + [Guard(p)] + [Append(p, j)];
  }

  /** One process alone logs j blocks. */
  lemma {:induction false} Alone(c: Config, n: nat, j: nat) returns (run: seq<Action>)
    requires n >= 1 && 1 <= c.maxop <= c.logsize && j < c.maxop && (j == 0 || j < c.size)
    ensures Opened(Exec(c, Initial(n), run), j, j)
  {
    hide Do;
    if j == 0 {
      run := [Begin(0)];
      ExecMore(c, Initial(n), [], Begin(0));
      FirstBegin(c, n);
    } else {
      run := Alone(c, n, j - 1);
      run := LogNext(c, Initial(n), run, 0, j - 1);
    }
  }

  lemma FirstBegin(c: Config, n: nat)
    requires n >= 1 && 1 <= c.maxop <= c.logsize
    ensures Opened(Do(c, Initial(n), Begin(0)), 0, 0) && (n >= 2 ==> Beside(Do(c, Initial(n), Begin(0)), 0, 0, Outside))
    ensures [] + [Begin(0)] == [Begin(0)]
  {
    ReservedMore(c, 0);
  }

  /** While process 0 keeps its operation open, process 1 logs one block in each of its own. */
  lemma {:induction false} OneByOne(c: Config, n: nat, j: nat) returns (run: seq<Action>)
    requires n >= 2 && 1 <= c.maxop && j + 2 * c.maxop <= c.logsize && (j == 0 || j < c.size)
    ensures Beside(Exec(c, Initial(n), run), 0, j, Outside)
  {
    hide Do;
    if j == 0 {
      run := [Begin(0)];
      ExecMore(c, Initial(n), [], Begin(0));
      FirstBegin(c, n);
    } else {
      run := OneByOne(c, n, j - 1);
      var s := Exec(c, Initial(n), run);
      SecondBegin(c, s, j - 1);
      ExecMore(c, Initial(n), run, Begin(1));
      run := LogNext(c, Initial(n), run + [Begin(1)], 1, j - 1);
      SecondEnd(c, Exec(c, Initial(n), run), j);
      ExecMore(c, Initial(n), run, End(1));
      run := run + [End(1)];
    }
  }

  lemma SecondBegin(c: Config, s: State, j: nat)
    requires Beside(s, 0, j, Outside) && j + 2 * c.maxop <= c.logsize
    ensures Beside(Do(c, s, Begin(1)), 0, j, InOp(0))
  {
    ReservedMore(c, 0);
    ReservedMore(c, 1);
  }

  lemma SecondEnd(c: Config, s: State, j: nat)
    requires Beside(s, 0, j, InOp(1))
    ensures Beside(Do(c, s, End(1)), 0, j, Outside)
  {
  }

  /** Then process 1 makes a calls in one operation, and process 0 makes b. */
  lemma {:induction false} Both(c: Config, n: nat, j: nat, a: nat, b: nat) returns (run: seq<Action>)
    requires n >= 2 && 1 <= c.maxop && j + 2 * c.maxop <= c.logsize && a <= c.maxop && b <= c.maxop
    requires j + a + b == 0 || j + a + b < c.size
    ensures Beside(Exec(c, Initial(n), run), b, j + a + b, InOp(a))
    decreases a + b
  {
    hide Do;
    if a == 0 && b == 0 {
      run := OneByOne(c, n, j);
      SecondBegin(c, Exec(c, Initial(n), run), j);
      ExecMore(c, Initial(n), run, Begin(1));
      run := run + [Begin(1)];
    } else if b > 0 {
      run := Both(c, n, j, a, b - 1);
      run := LogNext(c, Initial(n), run, 0, j + a + b - 1);
    } else {
      run := Both(c, n, j, a - 1, b);
      run := LogNext(c, Initial(n), run, 1, j + a + b - 1);
    }
  }

  lemma GuardPanics(c: Config, s: State, p: nat)
    requires p < |s.procs| && s.procs[p].InOp? && s.procs[p].used < c.maxop && |s.block| >= c.size - 1
    ensures !NoPanic(Do(c, s, Guard(p)))
  {
    assert Do(c, s, Guard(p)).procs[p].Panicked?;
  }

  /** How many blocks an interleaving of n processes can bring into the log. */
  ghost function Most(c: Config, n: nat): nat
  {
    if n >= 2 && 2 * c.maxop <= c.logsize then c.logsize else c.maxop
  }

  lemma ShortLogPanics(c: Config, n: nat) returns (run: seq<Action>)
    requires n >= 1 && 1 <= c.maxop <= c.logsize && c.size <= Most(c, n)
    ensures !NoPanic(Exec(c, Initial(n), run))
  {
    hide Do, NoPanic;
    var j, p := if c.size == 0 then 0 else c.size - 1, 0;
    if Most(c, n) == c.maxop {
      run := Alone(c, n, j);
    } else if j + 2 * c.maxop <= c.logsize {
      run := OneByOne(c, n, j);
    } else {
      var base := c.logsize - 2 * c.maxop;
      var a := if j - base < c.maxop then j - base else c.maxop;
      run := Both(c, n, base, a, j - base - a);
      p := if a < c.maxop then 1 else 0;
    }
    GuardPanics(c, Exec(c, Initial(n), run), p);
    ExecMore(c, Initial(n), run, Guard(p));
    run := run + [Guard(p)];
  }

  /** With room for one operation at a time, LOGSIZE could as well be MAXOPBLOCKS. */
  lemma {:induction false} OneAtATime(c: Config, n: nat, run: seq<Action>)
    requires 1 <= c.maxop <= c.logsize && c.maxop < c.size && (n <= 1 || c.logsize < 2 * c.maxop)
    ensures Exec(c, Initial(n), run) == Exec(c.(logsize := c.maxop), Initial(n), run)
    decreases |run|
  {
    hide Do;
    if |run| > 0 {
      var m, one := |run| - 1, c.(logsize := c.maxop);
      OneAtATime(c, n, run[..m]);
      GroupCommitSafe(one, n, run[..m]);
      SameProcs(one, Initial(n), run[..m]);
      SameStep(c, Exec(one, Initial(n), run[..m]), run[m]);
    }
  }

  lemma SameStep(c: Config, s: State, a: Action)
    requires 1 <= c.maxop <= c.logsize && c.maxop < c.size && (|s.procs| <= 1 || c.logsize < 2 * c.maxop)
    requires Inv(c.(logsize := c.maxop), s)
    ensures Do(c, s, a) == Do(c.(logsize := c.maxop), s, a)
  {
    var one := c.(logsize := c.maxop);
    if a.p < |s.procs| {
      ReservedMore(c, 0);
      ReservedMore(one, 0);
      if a.Begin? && s.outstanding >= 1 {
        BeginWaits(c, s, a.p);
      }
      if a.Guard? && s.procs[a.p].InOp? && s.procs[a.p].used < c.maxop {
        GuardSilent(one, s, a.p);
      }
    }
  }

  lemma BeginWaits(c: Config, s: State, p: nat)
    requires 1 <= c.maxop <= c.logsize && (|s.procs| <= 1 || c.logsize < 2 * c.maxop)
    requires Inv(c.(logsize := c.maxop), s) && p < |s.procs| && s.outstanding >= 1
    ensures Do(c, s, Begin(p)) == Do(c.(logsize := c.maxop), s, Begin(p))
  {
    var one := c.(logsize := c.maxop);
    if |s.procs| <= 1 {
      assert s.procs == [s.procs[0]];
      assert Total(Active1(), s.procs) == Active1()(s.procs[0]);
    } else {
      TwoReserved(c, s.outstanding);
      TwoReserved(one, s.outstanding);
    }
  }

  lemma TwoReserved(c: Config, n: int)
    requires n >= 1
    ensures Reserved(c, n + 1) >= 2 * c.maxop
  {
  }

  /** The guards of log_write, exactly: with room for one operation, no interleaving of n processes
      panics if and only if the log on disk is longer than what they can log. With two processes
      and room for two operations that is LOGSIZE; mkfs makes the log exactly LOGSIZE blocks long. */
  lemma GuardExact(c: Config, n: nat)
    requires n >= 1 && 1 <= c.maxop <= c.logsize
    ensures (forall run :: NoPanic(Exec(c, Initial(n), run))) <==> c.size > Most(c, n)
  {
    hide Do;
    if c.size > Most(c, n) {
      forall run ensures NoPanic(Exec(c, Initial(n), run)) {
        if Most(c, n) == c.logsize {
          GroupCommitSafe(c, n, run);
        } else {
          OneAtATime(c, n, run);
          GroupCommitSafe(c.(logsize := c.maxop), n, run);
        }
      }
    } else {
      var run := ShortLogPanics(c, n);
    }
  }

  // ----- more blocks than the log on disk holds -----

  /** Both processes pass the guards before either appends. */
  lemma BothPass(c: Config, s: State, u: nat, j: nat, a: nat)
    requires Beside(s, u, j, InOp(a)) && u < c.maxop && a < c.maxop && j < c.logsize && j + 1 < c.size
    ensures var t := Do(c, Do(c, Do(c, Do(c, s, Guard(0)), Guard(1)), Append(0, j)), Append(1, j + 1));
      NoPanic(t) && |t.block| == j + 2
  {
    var s1 := Do(c, s, Guard(0));
    assert s1 == s.(procs := s.procs[0 := Guarded(u)]);
    var s2 := Do(c, s1, Guard(1));
    assert s2 == s1.(procs := s1.procs[1 := Guarded(a)]);
    assert j !in s.block;
    var s3 := Do(c, s2, Append(0, j));
    assert s3 == s2.(block := s.block + [j], procs := s2.procs[0 := InOp(u + 1)]);
    assert j + 1 !in s3.block;
    var t := Do(c, s3, Append(1, j + 1));
    assert t == s3.(block := s3.block + [j + 1], procs := s3.procs[1 := InOp(a + 1)]);
  }

  /** Two operations at once can both pass the size guard for the last slot: it is tested before
      log.lock is taken. */
  ghost predicate CanOverrun(c: Config, n: nat)
  {
    n >= 2 && 2 * c.maxop <= c.logsize && 2 <= c.size <= c.logsize
  }

  lemma Overrun(c: Config, n: nat) returns (run: seq<Action>)
    requires Sized(c) && CanOverrun(c, n)
    ensures NoPanic(Exec(c, Initial(n), run)) && |Exec(c, Initial(n), run).block| == c.size
  {
    hide Do, NoPanic;
    var j, a, b := c.size - 2, 0, 0;
    if j + 2 * c.maxop <= c.logsize {
      run := Both(c, n, j, 0, 0);
    } else {
      var base := c.logsize - 2 * c.maxop;
      a := if j - base < c.maxop then j - base else c.maxop - 1;
      b := j - base - a;
      run := Both(c, n, base, a, b);
    }
    BothPass(c, Exec(c, Initial(n), run), b, j, a);
    ExecMore(c, Initial(n), run, Guard(0));
    ExecMore(c, Initial(n), run + [Guard(0)], Guard(1));
    ExecMore(c, Initial(n), run + [Guard(0)] + [Guard(1)], Append(0, j));
    ExecMore(c, Initial(n), run + [Guard(0)] + [Guard(1)] + [Append(0, j)], Append(1, j + 1));
    run := run + [Guard(0)] + [Guard(1)] + [Append(0, j)] + [Append(1, j + 1)];
  }

  /** At most one operation is open, and the log on disk has a slot for every block, and one more
      while somebody is between the guards and the lock. */
  ghost predicate Solo(c: Config, s: State)
  {
    && Inv(c, s) && s.outstanding <= 1 && |s.block| <= c.size - 1
    && forall i | 0 <= i < |s.procs| && s.procs[i].Guarded? :: |s.block| < c.size - 1
  }

  /** An operation is alone: no log, or only a single process, has room for two. */
  lemma SoloStep(c: Config, s: State, a: Action)
    requires Sized(c) && c.size >= 1 && (|s.procs| <= 1 || c.logsize < 2 * c.maxop)
    requires Solo(c, s) && NoPanic(Do(c, s, a))
    ensures Solo(c, Do(c, s, a))
  {
    DoInv(c, s, a);
    if a.p < |s.procs| {
      if a.Begin? && s.outstanding >= 1 {
        NoSecond(c, s, a.p);
      }
      if a.Append? && s.procs[a.p].Guarded? {
        forall q | 0 <= q < |s.procs| && q != a.p
          ensures !Active(s.procs[q])
        {
          TwoHolders(Active1(), s.procs, if q < a.p then q else a.p, if q < a.p then a.p else q);
        }
      }
      hide Inv;
    }
  }

  lemma NoSecond(c: Config, s: State, p: nat)
    requires Sized(c) && (|s.procs| <= 1 || c.logsize < 2 * c.maxop)
    requires Inv(c, s) && p < |s.procs| && s.outstanding >= 1
    ensures Do(c, s, Begin(p)).outstanding == s.outstanding
  {
    if |s.procs| <= 1 {
      assert s.procs == [s.procs[0]];
      assert Total(Active1(), s.procs) == Active1()(s.procs[0]);
    } else {
      TwoReserved(c, s.outstanding);
    }
  }

  lemma {:induction false} SoloRun(c: Config, n: nat, run: seq<Action>)
    requires Sized(c) && c.size >= 1 && (n <= 1 || c.logsize < 2 * c.maxop)
    ensures var s := Exec(c, Initial(n), run); NoPanic(s) ==> Solo(c, s)
    decreases |run|
  {
    hide Inv, Do, NoPanic;
    if |run| == 0 {
      InitialInv(c, n);
    } else {
      var m := |run| - 1;
      var s := Exec(c, Initial(n), run[..m]);
      SoloRun(c, n, run[..m]);
      SameProcs(c, Initial(n), run[..m]);
      if NoPanic(s) {
        if NoPanic(Do(c, s, run[m])) { SoloStep(c, s, run[m]); }
      } else {
        StaysPanicked(c, s, run[m]);
      }
    }
  }

  /** A log of one block has no slot, and nobody passes the guards. */
  lemma {:induction false} NoSlot(c: Config, n: nat, run: seq<Action>)
    requires c.size <= 1
    ensures var s := Exec(c, Initial(n), run); s.block == [] && forall i | 0 <= i < |s.procs| :: !s.procs[i].Guarded?
    decreases |run|
  {
    if |run| > 0 {
      NoSlot(c, n, run[..|run| - 1]);
    }
  }

  /** How many blocks the log can get, exactly: with room for an operation and a log on disk of at
      least one block, no interleaving brings in more than there are slots, that is size - 1, unless
      two operations may be open at once and the log is not longer than LOGSIZE. */
  lemma OverrunExact(c: Config, n: nat)
    requires Sized(c) && c.size >= 1
    ensures (forall run :: NoPanic(Exec(c, Initial(n), run)) ==> |Exec(c, Initial(n), run).block| <= c.size - 1)
            <==> !CanOverrun(c, n)
  {
    hide Do, Inv, NoPanic;
    if CanOverrun(c, n) {
      var run := Overrun(c, n);
    } else {
      forall run | NoPanic(Exec(c, Initial(n), run)) ensures |Exec(c, Initial(n), run).block| <= c.size - 1 {
        if c.size > c.logsize {
          GroupCommitSafe(c, n, run);
        } else if c.size == 1 {
          NoSlot(c, n, run);
        } else {
          SoloRun(c, n, run);
        }
      }
    }
  }

  /** MAXOPBLOCKS 10 and LOGSIZE 30, and the log of LOGSIZE blocks that mkfs makes. */
  const SHIPPED := Config(10, 30, 30)

  /** With these sizes two processes can bring 30 blocks into a log with slots for 29, without any
      panic of log_write: the slot of the last is the block after the log, where the inodes begin.
      As NBUF is 30 too, every buffer is then pinned, and commit panics before it writes. */
  lemma ShippedLogOverruns(n: nat) returns (run: seq<Action>)
    requires n >= 2
    ensures NoPanic(Exec(SHIPPED, Initial(n), run))
    ensures |Exec(SHIPPED, Initial(n), run).block| == 30 > SHIPPED.size - 1
  {
    hide Exec, NoPanic;
    run := Overrun(SHIPPED, n);
  }

  lemma {:induction false} SameProcs(c: Config, s: State, run: seq<Action>)
    ensures |Exec(c, s, run).procs| == |s.procs|
  {
    if |run| > 0 { SameProcs(c, s, run[..|run| - 1]); }
  }

  // ----- no deadlock, nothing lost -----

  /** How much a process has before it. */
  ghost function Ahead(): Proc -> nat
  {
    (x: Proc) =>
      match x
      case Outside => 0
      case Asleep => 6
      case Trying => 6
      case InOp(_) => 4
      case Guarded(_) => 5
      case Committing => 2
      case Erased => 1
      case Panicked => 0
  }

  /** Nobody is in a call and the log is empty. */
  ghost predicate Idle(s: State)
  {
    s.block == [] && s.outstanding == 0 && !s.committing && forall i | 0 <= i < |s.procs| :: s.procs[i].Outside?
  }

  /** The next step of a process that can go on. */
  ghost function Onward(x: Proc, p: nat): Action
  {
    match x
    case Guarded(_) => Append(p, 0)
    case InOp(_) => End(p)
    case Committing => Erase(p)
    case Erased => Done(p)
    case _ => Begin(p)
  }

  ghost predicate CanGoOn(c: Config, s: State, p: nat)
    requires p < |s.procs|
  {
    var x := s.procs[p];
    || x.Guarded? || x.Committing? || x.Erased? || (x.InOp? && !s.committing)
    || (x.Trying? && !s.committing && |s.block| + Reserved(c, s.outstanding + 1) <= c.logsize)
  }

  /** p goes on and has less before it. */
  lemma GoesOn(c: Config, s: State, p: nat)
    requires Sized(c) && Inv(c, s) && p < |s.procs|
    requires CanGoOn(c, s, p)
    ensures var t := Do(c, s, Onward(s.procs[p], p));
      Inv(c, t) && NoPanic(t) && Total(Ahead(), t.procs) < Total(Ahead(), s.procs)
  {
    hide Inv, Total;
    var x := s.procs[p];
    var a := Onward(x, p);
    var t := Do(c, s, a);
    DoInv(c, s, a);
    var y := if x.Guarded? then InOp(x.used + 1) else if x.Trying? then InOp(0) else if x.Committing? then Erased
             else if x.InOp? && s.outstanding == 1 then Committing else Outside;
    TotalUpdate(Ahead(), s.procs, p, y);
    TotalWake(Ahead(), s.procs[p := y]);
    assert t.procs == s.procs[p := y] || t.procs == Wake(s.procs[p := y]);
  }

  lemma {:induction false} SomeHolder(w: Proc -> nat, procs: seq<Proc>) returns (p: nat)
    requires Total(w, procs) > 0
    ensures p < |procs| && w(procs[p]) > 0
  {
    var n := |procs| - 1;
    if w(procs[n]) > 0 { p := n; } else { p := SomeHolder(w, procs[..n]); }
  }

  /** With nobody active and no commit the log is empty, so nobody sleeps. */
  lemma NobodySleeps(c: Config, s: State, p: nat)
    requires Sized(c) && Inv(c, s) && !s.committing && s.outstanding == 0 && p < |s.procs|
    ensures s.block == [] && Reserved(c, 1) <= c.logsize && (s.procs[p].Outside? || s.procs[p].Trying?)
  {
    assert Fine(c, s, s.procs[p]);
    TotalUpdate(Active1(), s.procs, p, Outside);
    TotalUpdate(Commit1(), s.procs, p, Outside);
  }

  lemma SomebodyCan(c: Config, s: State) returns (p: nat)
    requires Sized(c) && Inv(c, s) && !Idle(s)
    ensures p < |s.procs| && CanGoOn(c, s, p)
  {
    if s.committing {
      p := SomeHolder(Commit1(), s.procs);
    } else if s.outstanding > 0 {
      p := SomeHolder(Active1(), s.procs);
    } else {
      assert Total(Active1(), s.procs) == 0;
      if |s.procs| > 0 { NobodySleeps(c, s, 0); }
      assert exists q :: 0 <= q < |s.procs| && !s.procs[q].Outside?;
      p :| 0 <= p < |s.procs| && !s.procs[p].Outside?;
      NobodySleeps(c, s, p);
    }
  }

  lemma {:induction false} ExecFirst(c: Config, s: State, a: Action, run: seq<Action>)
    ensures Exec(c, s, [a] + run) == Exec(c, Do(c, s, a), run)
  {
    hide Do;
    if |run| == 0 {
      assert [a] + run == [a] && [a][..0] == [];
      assert Exec(c, s, []) == s;
    } else {
      var n := |run| - 1;
      assert ([a] + run)[..|run|] == [a] + run[..n];
      ExecFirst(c, s, a, run[..n]);
    }
  }

  /** No deadlock: from every state that a run without a panic reaches, whatever the size of the log,
      all calls can run to their end, which leaves the log empty and nobody waiting. */
  lemma {:induction false} Drain(c: Config, s: State) returns (run: seq<Action>)
    requires Sized(c) && Inv(c, s)
    ensures Idle(Exec(c, s, run))
    decreases Total(Ahead(), s.procs)
  {
    hide Do, Inv, Total;
    if Idle(s) {
      run := [];
    } else {
      var p := SomebodyCan(c, s);
      GoesOn(c, s, p);
      var a := Onward(s.procs[p], p);
      var rest := Drain(c, Do(c, s, a));
      run := [a] + rest;
      ExecFirst(c, s, a, rest);
    }
  }

  lemma EverybodyFinishes(c: Config, n: nat, run: seq<Action>) returns (more: seq<Action>)
    requires Sized(c) && NoPanic(Exec(c, Initial(n), run))
    ensures Idle(Exec(c, Exec(c, Initial(n), run), more))
  {
    GroupCommitSafe(c, n, run);
    more := Drain(c, Exec(c, Initial(n), run));
  }

  /** A logged block stays in the log until a commit erases it. */
  lemma LoggedStays(c: Config, s: State, a: Action, b: nat)
    requires b in s.block && b !in Do(c, s, a).block
    ensures a.Erase? && a.p < |s.procs| && s.procs[a.p].Committing?
  {
  }

  /** begin_op: granted exactly if no commit runs and the reservation fits; otherwise the process
      sleeps and nothing else changes. */
  lemma BeginExact(c: Config, s: State, p: nat)
    requires p < |s.procs| && (s.procs[p].Outside? || s.procs[p].Trying?)
    ensures var t := Do(c, s, Begin(p));
      && |t.procs| == |s.procs| && t.block == s.block && t.committing == s.committing
      && (forall i | 0 <= i < |s.procs| && i != p :: t.procs[i] == s.procs[i])
      && if !s.committing && |s.block| + (s.outstanding + 1) * c.maxop <= c.logsize
         then t.procs[p] == InOp(0) && t.outstanding == s.outstanding + 1
         else t.procs[p].Asleep? && t.outstanding == s.outstanding
  {
  }

  /** log_write puts its block into the log. */
  lemma AppendLogs(c: Config, s: State, p: nat, b: nat)
    requires p < |s.procs| && s.procs[p].Guarded?
    ensures b in Do(c, s, Append(p, b)).block && s.block <= Do(c, s, Append(p, b)).block
  {
  }
}
