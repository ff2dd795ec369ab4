/** What the calls of proc.c do to the process table, and why a process or a CPU changes state. */
module ProcSteps {
  import opened ProcTable

  /** CPU c is running process p, outside the lock. */
  ghost predicate Runs(s: State, c: nat, p: nat)
  {
    c < |s.cpus| && s.cpus[c] == Run(p) && p < |s.procs|
  }

  /** Slot by slot the tables agree but at p. */
  ghost predicate OnlySlot(was: seq<Proc>, now: seq<Proc>, p: nat)
  {
    |now| == |was| && forall q | 0 <= q < |was| && q != p :: now[q] == was[q]
  }

  // ---------------------------------------------------------------- the calls

  /** wakeup, by a process or by an interrupt on an idle CPU: nobody sleeps on the object any more. */
  lemma WakeupWakes(s: State, c: nat, id: nat)
    requires Inv(s) && c < |s.cpus| && LockFree(s)
    ensures var t := Do(s, Wakeup(c, id));
      && t.cpus == s.cpus && Woken(s.procs, t.procs, Obj(id))
      && forall q | 0 <= q < |t.procs| :: !AsleepOn(t.procs[q], Obj(id))
  {
    assert CpuOk(s, s.cpus[c]);
  }

  /** kill: the process is marked, and if it slept it runs again; nobody else notices. */
  lemma KillMarks(s: State, c: nat, p: nat, q: nat)
    requires Runs(s, c, p) && LockFree(s) && q < |s.procs| && s.procs[q].state != UNUSED
    ensures var t := Do(s, Kill(c, q));
      && t.cpus == s.cpus && OnlySlot(s.procs, t.procs, q) && t.procs[q].killed && t.procs[q].state != SLEEPING
      && t.procs[q].(killed := s.procs[q].killed, state := s.procs[q].state) == s.procs[q]
      && t.procs[q].state == (if s.procs[q].state == SLEEPING then RUNNABLE else s.procs[q].state)
  {
  }

  /** sleep: the process sleeps on the object and gives up its CPU, which still holds the lock. */
  lemma SleepSleeps(s: State, c: nat, p: nat, id: nat)
    requires Runs(s, c, p) && LockFree(s)
    ensures var t := Do(s, Sleep(c, id));
      && OnlySlot(s.procs, t.procs, p) && AsleepOn(t.procs[p], Obj(id)) && t.cpus == s.cpus[c := Leaving(p)]
      && t.procs[p].(state := s.procs[p].state, chan := s.procs[p].chan) == s.procs[p]
  {
  }

  /** A sleep followed by a wakeup of the same object, from whatever CPU, loses nothing. */
  lemma SleepThenWakeup(s: State, c: nat, p: nat, id: nat)
    requires Inv(s) && p < |s.procs| && AsleepOn(s.procs[p], Obj(id)) && c < |s.cpus| && LockFree(s)
    ensures Do(s, Wakeup(c, id)).procs[p] == s.procs[p].(state := RUNNABLE)
  {
    WakeupWakes(s, c, id);
    assert Do(s, Wakeup(c, id)).procs[p].(state := SLEEPING) == s.procs[p];
  }

  /** yield: the process is RUNNABLE and gives up its CPU. */
  lemma YieldYields(s: State, c: nat, p: nat)
    requires Runs(s, c, p) && LockFree(s)
    ensures var t := Do(s, Yield(c));
      && OnlySlot(s.procs, t.procs, p) && t.procs[p] == s.procs[p].(state := RUNNABLE)
      && t.cpus == s.cpus[c := Leaving(p)]
  {
  }

  /** A CPU leaves a process and runs another that is RUNNABLE: that one goes on where it slept, in
      wait or on its way back from the kernel, and sleeps on nothing. */
  lemma SwitchSwitches(s: State, c: nat, p: nat, q: nat)
    requires Inv(s) && c < |s.cpus| && s.cpus[c] == Leaving(p) && q < |s.procs| && s.procs[q].state == RUNNABLE
    ensures var s3 := Do(Do(Do(s, SwitchOut(c)), SchedTail(c)), Acquire(c));
      var t := Do(Do(Do(s3, Pick(c, q)), SwitchIn(c)), Resume(c));
      && s3.procs == s.procs && s3.cpus == s.cpus[c := SchedLocked] && OnlySlot(s.procs, t.procs, q)
      && t.procs[q].state == RUNNING && t.procs[q].chan == NoChan && !t.procs[q].act.InWait?
      && t.cpus == s.cpus[c := if s.procs[q].act.InWait? then Waiting(q) else Run(q)]
  {
    OthersRun(s, c);
    var s2 := Do(Do(s, SwitchOut(c)), SchedTail(c));
    assert s2.cpus == s.cpus[c := Sched] && s2.procs == s.procs;
    assert LockFree(s2);
    var s3 := Do(s2, Acquire(c));
    var s5 := Do(Do(s3, Pick(c, q)), SwitchIn(c));
    assert s5.cpus == s.cpus[c := Resumed(q)];
  }

  /** exit: see Exited; the process is a zombie on its way out. */
  lemma ExitExits(s: State, c: nat, p: nat)
    requires Runs(s, c, p) && LockFree(s) && p != INIT && s.procs[p].act.Normal?
    ensures var t := Do(s, Exit(c)); Exited(s.procs, t.procs, p) && t.cpus == s.cpus[c := Leaving(p)]
  {
  }

  /** wait, with the lock held: a zombie child is freed and nothing else changes; without one the
      process sleeps, unless it has no child or was killed. */
  lemma WaitReaps(s: State, c: nat, p: nat, z: nat)
    requires c < |s.cpus| && s.cpus[c] == Waiting(p) && p < |s.procs|
    ensures var t := Do(s, WaitScan(c, z));
      if ZombieChild(s.procs, p, z) then
        && OnlySlot(s.procs, t.procs, z) && t.cpus == s.cpus[c := Run(p)] && t.procs[z].state == UNUSED
        && t.procs[z].parent == NONE && !t.procs[z].killed && !t.procs[z].memory
      else if HasZombie(s.procs, p) then t == s
      else if HasKids(s.procs, p) && !s.procs[p].killed then
        && OnlySlot(s.procs, t.procs, p) && AsleepOn(t.procs[p], ProcChan(p)) && t.procs[p].act.InWait?
        && t.cpus == s.cpus[c := Leaving(p)]
      else t.procs == s.procs && t.cpus == s.cpus[c := Run(p)]
  {
  }

  /** fork, with nothing in between: the child is RUNNABLE, has its own memory and p as its parent;
      p is back where it was and nobody else has noticed. */
  lemma ForkForks(s: State, c: nat, p: nat, np: nat)
    requires Inv(s) && Runs(s, c, p) && LockFree(s) && s.procs[p].act.Normal? && np < |s.procs|
    requires s.procs[np].state == UNUSED
    ensures var t := Do(Do(Do(s, ForkAlloc(c, np)), ForkCopy(c)), ForkDone(c));
      && t.cpus == s.cpus && OnlySlot(s.procs, t.procs, np)
      && t.procs[np].state == RUNNABLE && t.procs[np].parent == p && t.procs[np].memory
  {
    assert CpuOk(s, s.cpus[c]);
    var s1 := Do(s, ForkAlloc(c, np));
    assert LockFree(s1) && s1.procs[p].act == Forking(np);
    var s2 := Do(s1, ForkCopy(c));
    assert LockFree(s2) && s2.procs[p].act == Forked(np);
  }

  // ---------------------------------------------------------------- why states change

  /** The causes of a change of state. */
  ghost predicate Cause(s: State, a: Action, p: nat, from: PState, to: PState)
    requires p < |s.procs| && a.c < |s.cpus|
  {
    var pc := s.cpus[a.c];
    var mine := Occupied(pc) && pc.p == p;
    match from
    case UNUSED => to == EMBRYO && a.ForkAlloc? && a.np == p
    case EMBRYO =>
      && Occupied(pc) && pc.p < |s.procs| && Owns(s.procs[pc.p], p)
      && ((to == UNUSED && a.ForkFail?) || (to == RUNNABLE && a.ForkDone? && s.procs[p].memory))
    case RUNNABLE => to == RUNNING && a.Pick? && a.p == p
    case RUNNING =>
      && mine
      && ((to == RUNNABLE && a.Yield?) || (to == SLEEPING && (a.Sleep? || a.WaitScan?)) || (to == ZOMBIE && a.Exit?))
    case SLEEPING =>
      && to == RUNNABLE
      && ((a.Wakeup? && s.procs[p].chan == Obj(a.id)) || (a.Kill? && a.target == p)
          || (a.Exit? && Occupied(pc) && pc.p < |s.procs| && ExitWakes(s.procs, pc.p, p)))
    case ZOMBIE => to == UNUSED && a.WaitScan? && a.z == p && pc.Waiting? && pc.p == s.procs[p].parent
  }

  /** In every reachable state, whatever the step: a process changes its state for one of these
      reasons only. */
  lemma Lifecycle(s: State, a: Action, p: nat)
    requires Inv(s) && p < |s.procs|
    ensures var t := Do(s, a);
      && |t.procs| == |s.procs|
      && (t.procs[p].state != s.procs[p].state ==>
            a.c < |s.cpus| && Cause(s, a, p, s.procs[p].state, t.procs[p].state))
  {
    if a.c < |s.cpus| {
      SchedCause(s, a, p);
      RunCause(s, a, p);
      OtherCause(s, a, p);
    }
  }

  lemma SchedCause(s: State, a: Action, p: nat)
    requires Inv(s) && p < |s.procs| && a.c < |s.cpus|
    ensures var t := SchedStep(s, a);
      |t.procs| == |s.procs| && (t.procs[p].state != s.procs[p].state ==>
                                   a.Pick? && Cause(s, a, p, s.procs[p].state, t.procs[p].state))
  {
  }

  lemma RunCause(s: State, a: Action, p: nat)
    requires Inv(s) && p < |s.procs| && a.c < |s.cpus|
    ensures var t := RunStep(s, a);
      |t.procs| == |s.procs| && (t.procs[p].state != s.procs[p].state ==>
                                   Cause(s, a, p, s.procs[p].state, t.procs[p].state))
  {
    var pc := s.cpus[a.c];
    assert CpuOk(s, pc);
  }

  lemma OtherCause(s: State, a: Action, p: nat)
    requires Inv(s) && p < |s.procs| && a.c < |s.cpus|
    ensures var t := OtherStep(s, a);
      |t.procs| == |s.procs| && (t.procs[p].state != s.procs[p].state ==>
                                   Cause(s, a, p, s.procs[p].state, t.procs[p].state))
  {
    var pc := s.cpus[a.c];
    assert CpuOk(s, pc) && SlotOk(s.procs, p);
    if pc.Run? { assert SlotOk(s.procs, pc.p); }
  }

  /** The places a CPU goes to, one after the other. */
  ghost predicate CpuNext(x: Pc, y: Pc)
  {
    match x
    case Sched => y.SchedLocked?
    case SchedLocked => y.Enter? || y.Sched?
    case Enter(p) => y == Resumed(p)
    case Resumed(p) => y == Run(p) || y == Waiting(p)
    case Run(p) => y == Leaving(p) || y == Waiting(p)
    case Waiting(p) => y == Run(p) || y == Leaving(p)
    case Leaving(p) => y == Left(p)
    case Left(p) => y.Sched?
  }

  lemma CpuCycle(s: State, a: Action, c: nat)
    requires c < |s.cpus|
    ensures var t := Do(s, a);
      && |t.cpus| == |s.cpus|
      && (t.cpus[c] != s.cpus[c] ==> a.c == c && CpuNext(s.cpus[c], t.cpus[c]))
      && (t.cpus[c] != s.cpus[c] && Holding(t.cpus[c]) && !Holding(s.cpus[c]) ==> LockFree(s))
  {
  }
}
