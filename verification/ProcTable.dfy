/** The process table of proc.c on any number of CPUs: fork, exit, wait, sleep, wakeup, kill, yield
    and the scheduler, interleaved between any two steps. swtch is a step of its own, so a process
    that has given up its CPU is still on its kernel stack until it has happened. */
module ProcTable {

  datatype PState = UNUSED | EMBRYO | SLEEPING | RUNNABLE | RUNNING | ZOMBIE

  const NONE := -1
  const INIT := 0          // the slot of initproc

  /** What a process sleeps on: another object, or a struct proc as in wait(). */
  datatype Chan = NoChan | Obj(id: nat) | ProcChan(slot: int)

  /** Where a process is in the kernel when it is not running. */
  datatype Act =
    | Normal
    | Forking(np: nat)      // in fork, np allocated
    | Forked(np: nat)       // in fork, np copied and given its parent
    | InWait                // asleep in wait()

  /** A struct proc. `memory` says that kstack and pgdir are allocated. */
  datatype Proc = Proc(state: PState, parent: int, chan: Chan, killed: bool, act: Act, memory: bool)

  /** Where a CPU is. */
  datatype Pc =
    | Sched                 // in scheduler(), lock not held
    | SchedLocked           // in scheduler(), lock held, scanning
    | Enter(p: nat)         // p chosen and its page table loaded, about to swtch to it; lock held
    | Resumed(p: nat)       // on p's stack just after swtch; lock held
    | Run(p: nat)           // running p, lock not held
    | Waiting(p: nat)       // in p's wait(), lock held
    | Leaving(p: nat)       // in p's sched(), p's state changed, still on p's stack; lock held
    | Left(p: nat)          // back on the scheduler's stack with p's page table loaded; lock held

  predicate Holding(c: Pc) { !c.Sched? && !c.Run? }
  predicate Occupied(c: Pc) { !c.Sched? && !c.SchedLocked? }
  predicate Parting(c: Pc) { c.Leaving? || c.Left? }

  datatype State = State(procs: seq<Proc>, cpus: seq<Pc>)

  predicate LockFree(s: State)
  {
    forall c | 0 <= c < |s.cpus| :: !Holding(s.cpus[c])
  }

  predicate Alive(p: Proc) { p.state == SLEEPING || p.state == RUNNABLE || p.state == RUNNING }

  // ----- what the table-scanning loops compute -----

  predicate AsleepOn(p: Proc, chan: Chan) { p.state == SLEEPING && p.chan == chan }

  /** Who slept on chan is RUNNABLE now and otherwise as before; nothing else has changed. */
  ghost predicate Woken(was: seq<Proc>, now: seq<Proc>, chan: Chan)
  {
    && |now| == |was|
    && (forall i | 0 <= i < |was| && AsleepOn(was[i], chan) ::
          now[i].state == RUNNABLE && now[i].(state := SLEEPING) == was[i])
    && (forall i | 0 <= i < |was| && !AsleepOn(was[i], chan) :: now[i] == was[i])
  }

  /** wakeup1: afterwards nobody sleeps on chan. */
  function Wakeup1(procs: seq<Proc>, chan: Chan): (r: seq<Proc>)
    ensures Woken(procs, r, chan) && forall i | 0 <= i < |r| :: !AsleepOn(r[i], chan)
  {
    seq(|procs|, i requires 0 <= i < |procs| =>
      if procs[i].state == SLEEPING && procs[i].chan == chan then procs[i].(state := RUNNABLE) else procs[i])
  }

  /** The children of p now belong to init. */
  function Reparent(procs: seq<Proc>, p: int): (r: seq<Proc>)
    ensures |r| == |procs|
    ensures forall i | 0 <= i < |r| :: r[i] == if procs[i].parent == p then procs[i].(parent := INIT) else procs[i]
  {
    seq(|procs|, i requires 0 <= i < |procs| => if procs[i].parent == p then procs[i].(parent := INIT) else procs[i])
  }

  predicate ZombieChild(procs: seq<Proc>, p: int, z: nat)
  {
    z < |procs| && procs[z].parent == p && procs[z].state == ZOMBIE
  }

  predicate HasZombie(procs: seq<Proc>, p: int)
  {
    exists z :: 0 <= z < |procs| && ZombieChild(procs, p, z)
  }

  predicate HasKids(procs: seq<Proc>, p: int)
  {
    exists z :: 0 <= z < |procs| && procs[z].parent == p
  }

  /** Whom the exit of p wakes: its parent, and init if that inherits a zombie. */
  ghost predicate ExitWakes(procs: seq<Proc>, p: nat, q: nat)
    requires p < |procs| && q < |procs|
  {
    AsleepOn(procs[q], ProcChan(procs[p].parent)) || (HasZombie(procs, p) && AsleepOn(procs[q], ProcChan(INIT)))
  }

  /** The table after the exit of p: p is a zombie, its children are init's, those it wakes are
      RUNNABLE, and all else is as before. */
  ghost predicate Exited(was: seq<Proc>, now: seq<Proc>, p: nat)
    requires p < |was|
  {
    && |now| == |was|
    && forall q | 0 <= q < |was| ::
      && now[q].(state := was[q].state, parent := was[q].parent) == was[q]
      && now[q].parent == (if was[q].parent == p then INIT else was[q].parent)
      && now[q].state == (if q == p then ZOMBIE else if ExitWakes(was, p, q) then RUNNABLE else was[q].state)
  }

  /** exit() under ptable.lock, up to its call of sched(). */
  function ExitTable(procs: seq<Proc>, p: nat): (r: seq<Proc>)
    requires p < |procs|
    ensures Exited(procs, r, p)
  {
    var a := Wakeup1(procs, ProcChan(procs[p].parent));
    var b := Reparent(a, p);
    var c := if HasZombie(a, p) then Wakeup1(b, ProcChan(INIT)) else b;
    ExitedIs(procs, p);
    c[p := c[p].(state := ZOMBIE)]
  }

  lemma ExitedIs(procs: seq<Proc>, p: nat)
    requires p < |procs|
    ensures var a := Wakeup1(procs, ProcChan(procs[p].parent));
      HasZombie(a, p) <==> HasZombie(procs, p)
  {
    var a := Wakeup1(procs, ProcChan(procs[p].parent));
    forall z | 0 <= z < |procs|
      ensures ZombieChild(a, p, z) <==> ZombieChild(procs, p, z)
    {
    }
  }

  const FREED := Proc(UNUSED, NONE, NoChan, false, Normal, false)

  // ----- the steps -----

  datatype Action =
    | Acquire(c: nat) | Pick(c: nat, p: nat) | NoPick(c: nat) | SwitchIn(c: nat) | Resume(c: nat)
    | Yield(c: nat) | Sleep(c: nat, id: nat) | Exit(c: nat) | WaitBegin(c: nat) | WaitScan(c: nat, z: nat)
    | SwitchOut(c: nat) | SchedTail(c: nat)
    | ForkAlloc(c: nat, np: nat) | ForkFail(c: nat) | ForkCopy(c: nat) | ForkDone(c: nat)
    | Wakeup(c: nat, id: nat) | Kill(c: nat, target: nat)

  function SetProc(s: State, p: nat, x: Proc): State
    requires p < |s.procs|
  {
    s.(procs := s.procs[p := x])
  }

  function SetCpu(s: State, c: nat, x: Pc): State
    requires c < |s.cpus|
  {
    s.(cpus := s.cpus[c := x])
  }

  /** scheduler(), sched() and swtch. */
  function SchedStep(s: State, a: Action): State
    requires a.c < |s.cpus|
  {
    var c, pc := a.c, s.cpus[a.c];
    match a
    case Acquire(_) => if pc.Sched? && LockFree(s) then SetCpu(s, c, SchedLocked) else s
    case Pick(_, p) =>
      if pc.SchedLocked? && p < |s.procs| && s.procs[p].state == RUNNABLE then
        SetCpu(SetProc(s, p, s.procs[p].(state := RUNNING)), c, Enter(p))
      else s
    case NoPick(_) => if pc.SchedLocked? then SetCpu(s, c, Sched) else s
    case SwitchIn(_) => if pc.Enter? then SetCpu(s, c, Resumed(pc.p)) else s
    case Resume(_) =>
      if !pc.Resumed? || pc.p >= |s.procs| then s
      else
        var me := s.procs[pc.p];
        if me.act.InWait? then SetCpu(SetProc(s, pc.p, me.(chan := NoChan, act := Normal)), c, Waiting(pc.p))
        else SetCpu(SetProc(s, pc.p, me.(chan := NoChan)), c, Run(pc.p))
    case SwitchOut(_) => if pc.Leaving? then SetCpu(s, c, Left(pc.p)) else s
    case SchedTail(_) => if pc.Left? then SetCpu(s, c, Sched) else s
    case _ => s
  }

  /** yield, sleep, exit and wait by the process p running on CPU c. */
  function RunStep(s: State, a: Action): State
    requires a.c < |s.cpus|
  {
    var c, pc := a.c, s.cpus[a.c];
    if !Occupied(pc) || pc.p >= |s.procs| then s else
    var p, me := pc.p, s.procs[pc.p];
    match a
    case Yield(_) =>
      if pc.Run? && LockFree(s) then SetCpu(SetProc(s, p, me.(state := RUNNABLE)), c, Leaving(p)) else s
    case Sleep(_, id) =>
      if pc.Run? && LockFree(s) then SetCpu(SetProc(s, p, me.(state := SLEEPING, chan := Obj(id))), c, Leaving(p))
        else s
    case Exit(_) =>
      if pc.Run? && LockFree(s) && p != INIT && me.act.Normal? then
        SetCpu(s.(procs := ExitTable(s.procs, p)), c, Leaving(p))
      else s
    case WaitBegin(_) => if pc.Run? && LockFree(s) && me.act.Normal? then SetCpu(s, c, Waiting(p)) else s
    case WaitScan(_, z) =>
      if !pc.Waiting? then s
      else if ZombieChild(s.procs, p, z) then SetCpu(SetProc(s, z, FREED), c, Run(p))
      else if HasZombie(s.procs, p) then s
      else if !HasKids(s.procs, p) || me.killed then SetCpu(s, c, Run(p))
      else SetCpu(SetProc(s, p, me.(state := SLEEPING, chan := ProcChan(p), act := InWait)), c, Leaving(p))
    case _ => s
  }

  /** fork, wakeup and kill. An interrupt may call wakeup on an idle CPU too. */
  function OtherStep(s: State, a: Action): State
    requires a.c < |s.cpus|
  {
    var pc := s.cpus[a.c];
    if a.Wakeup? && pc.Sched? && LockFree(s) then s.(procs := Wakeup1(s.procs, Obj(a.id)))
    else if !pc.Run? || pc.p >= |s.procs| then s else
    var p, me := pc.p, s.procs[pc.p];
    match a
    case ForkAlloc(_, np) =>
      if LockFree(s) && me.act.Normal? && np < |s.procs| && s.procs[np].state == UNUSED then
        s.(procs := s.procs[np := s.procs[np].(state := EMBRYO)][p := me.(act := Forking(np))])
      else s
    case ForkFail(_) =>           // allocproc or copyuvm ran out of memory; no lock is taken
      if me.act.Forking? && me.act.np < |s.procs| then
        s.(procs := s.procs[me.act.np := s.procs[me.act.np].(state := UNUSED)][p := me.(act := Normal)])
      else s
    case ForkCopy(_) =>           // no lock is taken: the slot is private
      if me.act.Forking? && me.act.np < |s.procs| then
        s.(procs := s.procs[me.act.np := s.procs[me.act.np].(parent := p,
                                                             memory := true)][p := me.(act := Forked(me.act.np))])
      else s
    case ForkDone(_) =>
      if LockFree(s) && me.act.Forked? && me.act.np < |s.procs| then
        s.(procs := s.procs[me.act.np := s.procs[me.act.np].(state := RUNNABLE)][p := me.(act := Normal)])
      else s
    case Wakeup(_, id) => if LockFree(s) then s.(procs := Wakeup1(s.procs, Obj(id))) else s
    case Kill(_, t) =>
      if LockFree(s) && t < |s.procs| && s.procs[t].state != UNUSED then
        SetProc(s, t, s.procs[t].(killed := true, state := if s.procs[t].state == SLEEPING then RUNNABLE
                                  else s.procs[t].state))
      else s
    case _ => s
  }

  function Do(s: State, a: Action): State
  {
    if a.c >= |s.cpus| then s
    else if a.Acquire? || a.Pick? || a.NoPick? || a.SwitchIn? || a.Resume? || a.SwitchOut?
    || a.SchedTail? then SchedStep(s, a)
    else if a.Yield? || a.Sleep? || a.Exit? || a.WaitBegin? || a.WaitScan? then RunStep(s, a)
    else OtherStep(s, a)
  }

  /** userinit has made the first process. */
  function Initial(nproc: nat, ncpu: nat): State
  {
    State(seq(nproc, i => if i == INIT then Proc(RUNNABLE, NONE, NoChan, false, Normal, true) else FREED),
          seq(ncpu, _ => Sched))
  }

  // ----- the invariant -----

  ghost predicate CpuOk(s: State, c: Pc)
  {
    Occupied(c) ==>
      && c.p < |s.procs|
      && (if Parting(c) then s.procs[c.p].state in {RUNNABLE, SLEEPING, ZOMBIE} else s.procs[c.p].state == RUNNING)
      && (c.Run? || c.Waiting? ==> !s.procs[c.p].act.InWait?)
      && (c.Waiting? ==> s.procs[c.p].act.Normal?)
  }

  ghost predicate Apart(c: Pc, d: Pc)
  {
    && !(Holding(c) && Holding(d))
    && (Occupied(c) && Occupied(d) ==> c.p != d.p)
  }

  ghost predicate CpusOk(s: State)
  {
    && (forall c | 0 <= c < |s.cpus| :: CpuOk(s, s.cpus[c]))
    && (forall c, d | 0 <= c < d < |s.cpus| :: Apart(s.cpus[c], s.cpus[d]))
  }

  ghost predicate OnCpu(s: State, p: nat)
  {
    exists c :: 0 <= c < |s.cpus| && Occupied(s.cpus[c]) && s.cpus[c].p == p && !Parting(s.cpus[c])
  }

  ghost predicate Owns(f: Proc, np: nat)
  {
    (f.act.Forking? || f.act.Forked?) && f.act.np == np
  }

  ghost predicate Owned(procs: seq<Proc>, np: nat)
  {
    exists f :: 0 <= f < |procs| && Owns(procs[f], np)
  }

  ghost predicate SlotOk(procs: seq<Proc>, p: nat)
    requires p < |procs|
  {
    var x := procs[p];
    && (x.state == UNUSED ==> x.parent == NONE && !x.memory && x.act.Normal?)
    && (x.state == EMBRYO ==> x.act.Normal? && Owned(procs, p))
    && (x.state == ZOMBIE ==> x.act.Normal?)
    && (Alive(x) || x.state == ZOMBIE ==>
        x.memory && (p == INIT || (0 <= x.parent < |procs| && x.parent != p && Alive(procs[x.parent]))))
    && (p == INIT ==> Alive(x) && x.parent == NONE)
    && (x.act.Forking? || x.act.Forked? ==>
          && x.act.np < |procs| && procs[x.act.np].state == EMBRYO
          && procs[x.act.np].parent == (if x.act.Forking? then NONE else p)
          && procs[x.act.np].memory == x.act.Forked?)
    && (x.state == SLEEPING && x.act.InWait? ==> x.chan == ProcChan(p) && !HasZombie(procs, p))
  }

  ghost predicate SlotsOk(procs: seq<Proc>)
  {
    && INIT < |procs|
    && (forall p | 0 <= p < |procs| :: SlotOk(procs, p))
    && (forall f, g, np | 0 <= f < g < |procs| && Owns(procs[f], np) :: !Owns(procs[g], np))
  }

  ghost predicate Inv(s: State)
  {
    && SlotsOk(s.procs) && CpusOk(s)
    && forall p | 0 <= p < |s.procs| && s.procs[p].state == RUNNING :: OnCpu(s, p)
  }

  lemma InitialInv(nproc: nat, ncpu: nat)
    requires 1 <= nproc
    ensures Inv(Initial(nproc, ncpu))
  {}

  // ----- what a step does to the CPUs -----

  /** While CPU c has or can take the lock, every other occupied CPU is running its process. */
  lemma OthersRun(s: State, c: nat)
    requires CpusOk(s) && c < |s.cpus| && (LockFree(s) || Holding(s.cpus[c]))
    ensures forall d | 0 <= d < |s.cpus| && d != c && Occupied(s.cpus[d]) ::
              s.cpus[d].Run? && s.cpus[d].p < |s.procs| && s.procs[s.cpus[d].p].state == RUNNING
  {
    forall d | 0 <= d < |s.cpus| && d != c && Occupied(s.cpus[d]) ensures s.cpus[d].Run? {
      if d < c { assert Apart(s.cpus[d], s.cpus[c]); } else { assert Apart(s.cpus[c], s.cpus[d]); }
    }
    forall d | 0 <= d < |s.cpus| && d != c && Occupied(s.cpus[d])
      ensures s.cpus[d].p < |s.procs| && s.procs[s.cpus[d].p].state == RUNNING
    {
      assert CpuOk(s, s.cpus[d]);
    }
  }

  /** A process that no other CPU's process depends on: same state, same activity. */
  ghost predicate Calm(x: Proc, y: Proc)
  {
    x.state == y.state && x.act == y.act
  }

  ghost predicate OthersCalm(s: State, t: State, c: nat)
    requires |t.procs| == |s.procs|
  {
    forall d | 0 <= d < |s.cpus| && d != c && Occupied(s.cpus[d]) && s.cpus[d].p < |s.procs| ::
      Calm(s.procs[s.cpus[d].p], t.procs[s.cpus[d].p])
  }

  ghost predicate Elsewhere(s: State, c: nat, p: nat)
  {
    exists d :: 0 <= d < |s.cpus| && d != c && Occupied(s.cpus[d]) && s.cpus[d].p == p
  }

  /** CPU c runs process p on its stack, not about to leave it. */
  ghost predicate Running(c: Pc, p: nat)
  {
    Occupied(c) && c.p == p && !Parting(c)
  }

  lemma CpuStep(s: State, t: State, c: nat)
    requires Inv(s) && c < |s.cpus| && |t.procs| == |s.procs| && SlotsOk(t.procs)
    requires |t.cpus| == |s.cpus| && t.cpus == s.cpus[c := t.cpus[c]]
    requires OthersCalm(s, t, c) && CpuOk(t, t.cpus[c])
    requires Holding(t.cpus[c]) ==> Holding(s.cpus[c]) || LockFree(s)
    requires Occupied(t.cpus[c]) ==>
              (Occupied(s.cpus[c]) && s.cpus[c].p == t.cpus[c].p) || !Elsewhere(s, c, t.cpus[c].p)
    requires forall q | 0 <= q < |t.procs| && t.procs[q].state == RUNNING ::
               Running(t.cpus[c], q) || (s.procs[q].state == RUNNING && !Running(s.cpus[c], q))
    ensures Inv(t)
  {
    hide SlotsOk;
    forall d | 0 <= d < |t.cpus| ensures CpuOk(t, t.cpus[d]) {
      assert CpuOk(s, s.cpus[d]);
    }
    forall d, e | 0 <= d < e < |t.cpus| ensures Apart(t.cpus[d], t.cpus[e]) {
      assert Apart(s.cpus[d], s.cpus[e]);
    }
    forall q | 0 <= q < |t.procs| && t.procs[q].state == RUNNING ensures OnCpu(t, q) {
      if Running(t.cpus[c], q) {
      } else {
        assert OnCpu(s, q);
        var d :| 0 <= d < |s.cpus| && Occupied(s.cpus[d]) && s.cpus[d].p == q && !Parting(s.cpus[d]);
        assert t.cpus[d] == s.cpus[d];
      }
    }
  }

  // ----- what a step does to the table -----

  ghost predicate SameFork(x: Act, y: Act)
  {
    x == y || ((x.Normal? || x.InWait?) && (y.Normal? || y.InWait?))
  }

  /** An alive process changes state, channel or its killed flag and stays alive. */
  lemma AliveUpdate(procs: seq<Proc>, p: nat, x: Proc)
    requires SlotsOk(procs) && p < |procs| && Alive(procs[p]) && Alive(x)
    requires x.parent == procs[p].parent && x.memory && SameFork(procs[p].act, x.act)
    requires x.state == SLEEPING && x.act.InWait? ==> x.chan == ProcChan(p) && !HasZombie(procs, p)
    ensures SlotsOk(procs[p := x])
  {
    var r := procs[p := x];
    forall q | 0 <= q < |r| ensures SlotOk(r, q) {
      assert SlotOk(procs, q);
      if r[q].state == EMBRYO {
        var f :| 0 <= f < |procs| && Owns(procs[f], q);
        assert Owns(r[f], q);
      }
      assert HasZombie(r, q) ==> HasZombie(procs, q) by {
        if HasZombie(r, q) {
          var z :| 0 <= z < |r| && ZombieChild(r, q, z);
          assert ZombieChild(procs, q, z);
        }
      }
      if r[q].act.Forking? || r[q].act.Forked? { assert SlotOk(procs, q); assert procs[q].act == r[q].act; }
    }
    forall f, g, np | 0 <= f < g < |r| && Owns(r[f], np) ensures !Owns(r[g], np) {
      assert Owns(procs[f], np);
    }
  }

  lemma WakeupOk(procs: seq<Proc>, chan: Chan)
    requires SlotsOk(procs)
    ensures SlotsOk(Wakeup1(procs, chan))
  {
    var r := Wakeup1(procs, chan);
    forall q | 0 <= q < |r| ensures SlotOk(r, q) {
      assert SlotOk(procs, q);
      if r[q].state == EMBRYO {
        var f :| 0 <= f < |procs| && Owns(procs[f], q);
        assert Owns(r[f], q);
      }
      if HasZombie(r, q) {
        var z :| 0 <= z < |r| && ZombieChild(r, q, z);
        assert ZombieChild(procs, q, z);
      }
    }
    forall f, g, np | 0 <= f < g < |r| && Owns(r[f], np) ensures !Owns(r[g], np) {
      assert Owns(procs[f], np);
    }
  }

  /** Nobody's parent is a zombie, so reaping one orphans nobody. */
  lemma ReapOk(procs: seq<Proc>, z: nat)
    requires SlotsOk(procs) && z < |procs| && procs[z].state == ZOMBIE
    ensures SlotsOk(procs[z := FREED])
  {
    var r := procs[z := FREED];
    assert SlotOk(procs, z);
    forall q | 0 <= q < |r| ensures SlotOk(r, q) {
      assert SlotOk(procs, q);
      if r[q].state == EMBRYO {
        var f :| 0 <= f < |procs| && Owns(procs[f], q);
        assert Owns(r[f], q);
      }
      if HasZombie(r, q) {
        var y :| 0 <= y < |r| && ZombieChild(r, q, y);
        assert ZombieChild(procs, q, y);
      }
    }
    forall f, g, np | 0 <= f < g < |r| && Owns(r[f], np) ensures !Owns(r[g], np) {
      assert Owns(procs[f], np);
    }
  }

  /** What exit does to each slot. */
  lemma ExitSlot(procs: seq<Proc>, p: nat, q: nat)
    requires SlotsOk(procs) && p < |procs| && Alive(procs[p]) && p != INIT && procs[p].act.Normal? && q < |procs|
    requires procs[p].state == RUNNING
    ensures |ExitTable(procs, p)| == |procs|
    ensures var x, y := procs[q], ExitTable(procs, p)[q];
            && y.act == x.act && y.memory == x.memory && y.chan == x.chan && y.killed == x.killed
            && y.parent == (if x.parent == p then INIT else x.parent)
            && (if q == p then y.state == ZOMBIE
                else y.state == x.state || (x.state == SLEEPING && y.state == RUNNABLE))
            && (y.state == SLEEPING ==> x.state == SLEEPING && x.chan != ProcChan(procs[p].parent)
                                        && (HasZombie(procs, p) ==> x.chan != ProcChan(INIT)))
  {
    var a := Wakeup1(procs, ProcChan(procs[p].parent));
    if HasZombie(procs, p) {
      var z :| 0 <= z < |procs| && ZombieChild(procs, p, z);
      assert ZombieChild(a, p, z);
    }
  }

  /** What exit does to slot q. */
  ghost predicate ExitLike(procs: seq<Proc>, r: seq<Proc>, p: nat, q: nat)
    requires q < |procs| && p < |procs|
  {
    && |r| == |procs|
    && r[q].act == procs[q].act && r[q].memory == procs[q].memory && r[q].chan == procs[q].chan
    && r[q].parent == (if procs[q].parent == p then INIT else procs[q].parent)
    && (if q == p then r[q].state == ZOMBIE
        else r[q].state == procs[q].state || (procs[q].state == SLEEPING && r[q].state == RUNNABLE))
    && (r[q].state == SLEEPING ==>
        procs[q].chan != ProcChan(procs[p].parent) && (HasZombie(procs, p) ==> procs[q].chan != ProcChan(INIT)))
  }

  lemma ExitedSlot(procs: seq<Proc>, r: seq<Proc>, p: nat, q: nat)
    requires SlotsOk(procs) && p < |procs| && p != INIT && procs[p].act.Normal? && procs[p].state == RUNNING
             && q < |procs|
    requires |r| == |procs| && forall k: nat | k < |procs| :: ExitLike(procs, r, p, k)
    ensures SlotOk(r, q)
  {
    assert SlotOk(procs, p) && SlotOk(procs, INIT) && SlotOk(procs, q);
    assert ExitLike(procs, r, p, q) && ExitLike(procs, r, p, p) && ExitLike(procs, r, p, INIT);
    if r[q].state == EMBRYO {
      var f :| 0 <= f < |procs| && Owns(procs[f], q);
      assert ExitLike(procs, r, p, f) && Owns(r[f], q);
    }
    if r[q].state == SLEEPING && r[q].act.InWait? {
      NoNewZombie(procs, r, p, q);
    }
    if Alive(r[q]) || r[q].state == ZOMBIE {
      if q != INIT { assert ExitLike(procs, r, p, procs[q].parent); }
    }
    if r[q].act.Forking? || r[q].act.Forked? {
      assert ExitLike(procs, r, p, r[q].act.np);
    }
  }

  lemma ExitOk(procs: seq<Proc>, p: nat)
    requires SlotsOk(procs) && p < |procs| && p != INIT && procs[p].act.Normal? && procs[p].state == RUNNING
    ensures SlotsOk(ExitTable(procs, p))
  {
    hide SlotOk;
    var r := ExitTable(procs, p);
    forall q: nat | q < |procs|
      ensures ExitLike(procs, r, p, q)
    {
      ExitSlot(procs, p, q);
    }
    hide ExitTable;
    assert ExitLike(procs, r, p, p);
    forall q | 0 <= q < |r| ensures SlotOk(r, q) {
      ExitedSlot(procs, r, p, q);
    }
    forall f, g, np | 0 <= f < g < |r| && Owns(r[f], np) ensures !Owns(r[g], np) {
      assert ExitLike(procs, r, p, f) && ExitLike(procs, r, p, g);
      assert Owns(procs[f], np);
    }
  }

  /** Whoever still sleeps in wait() after an exit has not acquired a zombie child by it. */
  lemma NoNewZombie(procs: seq<Proc>, r: seq<Proc>, p: nat, q: nat)
    requires |r| == |procs| && p < |procs| && q < |r| && procs[p].parent != p
    requires forall k: nat | k < |procs| :: ExitLike(procs, r, p, k)
    requires q != procs[p].parent && (HasZombie(procs, p) ==> q != INIT) && !HasZombie(procs, q)
    ensures !HasZombie(r, q)
  {
    forall z | 0 <= z < |r|
      ensures !ZombieChild(r, q, z)
    {
      assert ExitLike(procs, r, p, z);
      assert ZombieChild(procs, p, z) ==> HasZombie(procs, p);
      assert ZombieChild(procs, q, z) ==> HasZombie(procs, q);
    }
  }

  /** A slot that is not alive, and its owner p, change together: the steps of fork. */
  ghost predicate ForkMove(procs: seq<Proc>, p: nat, np: nat, x: Proc, y: Proc)
  {
    && p < |procs| && np < |procs| && p != np && np != INIT
    && procs[p].state == RUNNING && x == procs[p].(act := x.act) && !procs[p].act.InWait? && !x.act.InWait?
    && procs[np].state in {UNUSED, EMBRYO} && procs[np].act.Normal? && y.act.Normal?
    && (procs[np].state == UNUSED ==> procs[p].act.Normal?)
    && (procs[np].state == EMBRYO ==> Owns(procs[p], np))
    && y.state in {UNUSED, EMBRYO, RUNNABLE}
    && (y.state == EMBRYO ==>
        Owns(x, np) && y.parent == (if x.act.Forking? then NONE else p) && y.memory == x.act.Forked?)
    && (y.state != EMBRYO ==> x.act.Normal?)
    && (y.state == UNUSED ==> y.parent == NONE && !y.memory)
    && (y.state == RUNNABLE ==> y.parent == p && y.memory)
  }

  lemma ForkUpdate(procs: seq<Proc>, p: nat, np: nat, x: Proc, y: Proc)
    requires SlotsOk(procs) && ForkMove(procs, p, np, x, y)
    ensures SlotsOk(procs[np := y][p := x])
  {
    var r := procs[np := y][p := x];
    NobodyElseOwns(procs, p, np);
    forall q | 0 <= q < |r| ensures SlotOk(r, q) {
      ForkSlot(procs, p, np, x, y, q);
    }
    hide SlotOk;
    forall f, g, k | 0 <= f < g < |r| && Owns(r[f], k) ensures !Owns(r[g], k) {
      if f != p && g != p { assert Owns(procs[f], k); }
    }
  }

  /** The forking process itself. */
  lemma ForkSelf(procs: seq<Proc>, p: nat, np: nat, x: Proc, y: Proc)
    requires ForkMove(procs, p, np, x, y) && SlotOk(procs, p) && INIT < |procs|
    ensures SlotOk(procs[np := y][p := x], p)
  {
    var r := procs[np := y][p := x];
    if p != INIT {
      assert Alive(procs[procs[p].parent]) && r[procs[p].parent].state == procs[procs[p].parent].state;
    }
  }

  /** The child's slot. */
  lemma ForkChild(procs: seq<Proc>, p: nat, np: nat, x: Proc, y: Proc)
    requires ForkMove(procs, p, np, x, y) && SlotOk(procs, p) && SlotOk(procs, np)
    ensures SlotOk(procs[np := y][p := x], np)
  {
    var r := procs[np := y][p := x];
    if y.state == EMBRYO {
      assert Owns(r[p], np);
    }
  }

  /** Every other slot. */
  lemma ForkOther(procs: seq<Proc>, p: nat, np: nat, x: Proc, y: Proc, q: nat)
    requires ForkMove(procs, p, np, x, y) && SlotOk(procs, p) && SlotOk(procs, np) && q < |procs| && SlotOk(procs, q)
             && q != p && q != np
    requires !Owns(procs[q], np) && (Owns(procs[p], q) ==> q == np)
    ensures SlotOk(procs[np := y][p := x], q)
  {
    var r := procs[np := y][p := x];
    if r[q].state == EMBRYO {
      var f :| 0 <= f < |procs| && Owns(procs[f], q);
      assert Owns(r[f], q);
    }
    if HasZombie(r, q) {
      var z :| 0 <= z < |r| && ZombieChild(r, q, z);
      assert ZombieChild(procs, q, z);
    }
  }

  lemma ForkSlot(procs: seq<Proc>, p: nat, np: nat, x: Proc, y: Proc, q: nat)
    requires SlotsOk(procs) && ForkMove(procs, p, np, x, y) && q < |procs|
    ensures SlotOk(procs[np := y][p := x], q)
  {
    hide SlotOk;
    assert SlotOk(procs, p) && SlotOk(procs, np) && SlotOk(procs, q);
    if q == p {
      ForkSelf(procs, p, np, x, y);
    } else if q == np {
      ForkChild(procs, p, np, x, y);
    } else {
      NobodyElseOwns(procs, p, np);
      ForkOther(procs, p, np, x, y, q);
    }
  }

  lemma NobodyElseOwns(procs: seq<Proc>, p: nat, np: nat)
    requires SlotsOk(procs) && p < |procs| && np < |procs|
    requires procs[np].state == UNUSED || Owns(procs[p], np)
    ensures forall f | 0 <= f < |procs| && f != p :: !Owns(procs[f], np)
  {
    forall f | 0 <= f < |procs| && f != p ensures !Owns(procs[f], np) {
      assert SlotOk(procs, f);
    }
  }

  lemma KilledFlag(procs: seq<Proc>, t: nat)
    requires SlotsOk(procs) && t < |procs| && !Alive(procs[t])
    ensures SlotsOk(procs[t := procs[t].(killed := true)])
  {
    var r := procs[t := procs[t].(killed := true)];
    forall q | 0 <= q < |r| ensures SlotOk(r, q) {
      assert SlotOk(procs, q);
      if r[q].state == EMBRYO {
        var f :| 0 <= f < |procs| && Owns(procs[f], q);
        assert Owns(r[f], q);
      }
      if HasZombie(r, q) {
        var z :| 0 <= z < |r| && ZombieChild(r, q, z);
        assert ZombieChild(procs, q, z);
      }
    }
    forall f, g, np | 0 <= f < g < |r| && Owns(r[f], np) ensures !Owns(r[g], np) {
      assert Owns(procs[f], np);
    }
  }

  // ----- every step keeps the invariant -----

  /** A process on one CPU is on no other. */
  lemma OnlyHere(s: State, c: nat)
    requires CpusOk(s) && c < |s.cpus| && Occupied(s.cpus[c])
    ensures !Elsewhere(s, c, s.cpus[c].p)
  {
    forall d | 0 <= d < |s.cpus| && d != c && Occupied(s.cpus[d]) ensures s.cpus[d].p != s.cpus[c].p {
      if d < c { assert Apart(s.cpus[d], s.cpus[c]); } else { assert Apart(s.cpus[c], s.cpus[d]); }
    }
  }

  lemma SchedStepInv(s: State, a: Action)
    requires Inv(s) && a.c < |s.cpus|
    ensures Inv(SchedStep(s, a))
  {
    var t, pc := SchedStep(s, a), s.cpus[a.c];
    if t != s {
      assert CpuOk(s, pc);
      if Holding(pc) { OthersRun(s, a.c); }
      if Occupied(pc) { OnlyHere(s, a.c); }
      if a.Pick? {
        assert SlotOk(s.procs, a.p);
        AliveUpdate(s.procs, a.p, t.procs[a.p]);
      } else if a.Resume? {
        assert SlotOk(s.procs, pc.p);
        AliveUpdate(s.procs, pc.p, t.procs[pc.p]);
      }
      hide SlotsOk;
      CpuStep(s, t, a.c);
    }
  }

  lemma RunStepInv(s: State, a: Action)
    requires Inv(s) && a.c < |s.cpus|
    ensures Inv(RunStep(s, a))
  {
    hide Exited;
    var t, pc := RunStep(s, a), s.cpus[a.c];
    if t != s {
      var p := pc.p;
      assert CpuOk(s, pc) && SlotOk(s.procs, p);
      OthersRun(s, a.c);
      OnlyHere(s, a.c);
      if a.Exit? {
        ExitOk(s.procs, p);
        forall q | 0 <= q < |s.procs| ensures |t.procs| == |s.procs|
          ensures t.procs[q].act == s.procs[q].act
          ensures q != p && s.procs[q].state == RUNNING ==> t.procs[q].state == RUNNING
          ensures t.procs[q].state == RUNNING ==> q != p && s.procs[q].state == RUNNING
          ensures q == p ==> t.procs[q].state == ZOMBIE
        {
          ExitSlot(s.procs, p, q);
        }
      } else if a.WaitScan? && ZombieChild(s.procs, p, a.z) {
        ReapOk(s.procs, a.z);
      } else {
        AliveUpdate(s.procs, p, t.procs[p]);
        assert t.procs == s.procs[p := t.procs[p]];
      }
      hide SlotsOk, ExitTable;
      CpuStep(s, t, a.c);
    }
  }

  /** Each of the four actions of fork moves the forking process and the child's slot. */
  lemma ForkIsMove(s: State, a: Action) returns (p: nat, np: nat)
    requires Inv(s) && a.c < |s.cpus| && (a.ForkAlloc? || a.ForkFail? || a.ForkCopy? || a.ForkDone?)
             && OtherStep(s, a) != s
    ensures var t := OtherStep(s, a);
      && s.cpus[a.c] == Run(p) && t.cpus == s.cpus && p < |s.procs| && np < |s.procs| && |t.procs| == |s.procs|
      && ForkMove(s.procs, p, np, t.procs[p], t.procs[np]) && t.procs == s.procs[np := t.procs[np]][p := t.procs[p]]
  {
    var pc := s.cpus[a.c];
    p := pc.p;
    np := if a.ForkAlloc? then a.np else s.procs[p].act.np;
    assert CpuOk(s, pc) && SlotOk(s.procs, p) && SlotOk(s.procs, INIT) && SlotOk(s.procs, np);
  }

  lemma ForkStepInv(s: State, a: Action)
    requires Inv(s) && a.c < |s.cpus| && (a.ForkAlloc? || a.ForkFail? || a.ForkCopy? || a.ForkDone?)
    ensures Inv(OtherStep(s, a))
  {
    var t := OtherStep(s, a);
    if t != s {
      var p, np := ForkIsMove(s, a);
      hide OtherStep, SlotsOk, SlotOk;
      OnlyHere(s, a.c);
      ForkUpdate(s.procs, p, np, t.procs[p], t.procs[np]);
      forall d | 0 <= d < |s.cpus| && d != a.c && Occupied(s.cpus[d]) && s.cpus[d].p < |s.procs|
        ensures s.procs[s.cpus[d].p].state !in {UNUSED, EMBRYO} && s.cpus[d].p != p
      {
        assert CpuOk(s, s.cpus[d]);
      }
      assert CpuOk(s, s.cpus[a.c]);
      CpuStep(s, t, a.c);
    }
  }

  lemma SignalStepInv(s: State, a: Action)
    requires Inv(s) && a.c < |s.cpus| && (a.Wakeup? || a.Kill?)
    ensures Inv(OtherStep(s, a))
  {
    var t, pc := OtherStep(s, a), s.cpus[a.c];
    if t != s {
      assert CpuOk(s, pc);
      OthersRun(s, a.c);
      if Occupied(pc) { OnlyHere(s, a.c); }
      if a.Wakeup? {
        WakeupOk(s.procs, Obj(a.id));
      } else {
        assert SlotOk(s.procs, a.target);
        if Alive(s.procs[a.target]) {
          AliveUpdate(s.procs, a.target, t.procs[a.target]);
        } else {
          KilledFlag(s.procs, a.target);
        }
      }
      hide SlotsOk, SlotOk;
      CpuStep(s, t, a.c);
    }
  }

  lemma DoInv(s: State, a: Action)
    requires Inv(s)
    ensures Inv(Do(s, a))
  {
    if a.c < |s.cpus| {
      SchedStepInv(s, a);
      RunStepInv(s, a);
      if a.Wakeup? || a.Kill? { SignalStepInv(s, a); }
      if a.ForkAlloc? || a.ForkFail? || a.ForkCopy? || a.ForkDone? { ForkStepInv(s, a); }
    }
  }

  function Exec(s: State, run: seq<Action>): State
  {
    if |run| == 0 then s else Do(Exec(s, run[..|run| - 1]), run[|run| - 1])
  }

  /** In every interleaving on any number of CPUs: with ptable.lock free the RUNNING processes are
      one-to-one with the CPUs' current processes; every process but init has a parent that is
      neither free nor a zombie; nobody is asleep in wait() over a zombie child; and, lock free or
      not, no CPU is ever on the stack or page table of a process whose memory wait() has freed. */
  lemma {:induction false} ProcessTableSafe(nproc: nat, ncpu: nat, run: seq<Action>)
    requires 1 <= nproc
    ensures var s := Exec(Initial(nproc, ncpu), run);
            && Inv(s)
            && (LockFree(s) ==> Correspondence(s))
            && (forall p | 0 <= p < |s.procs| && p != INIT && (Alive(s.procs[p]) || s.procs[p].state == ZOMBIE) ::
                  0 <= s.procs[p].parent < |s.procs| && Alive(s.procs[s.procs[p].parent]))
            && (forall p | 0 <= p < |s.procs| && s.procs[p].state == SLEEPING && s.procs[p].act.InWait? ::
                  !HasZombie(s.procs, p))
            && (forall c | 0 <= c < |s.cpus| && Occupied(s.cpus[c]) ::
                  s.cpus[c].p < |s.procs| && s.procs[s.cpus[c].p].memory)
    decreases |run|
  {
    if |run| == 0 {
      InitialInv(nproc, ncpu);
    } else {
      ProcessTableSafe(nproc, ncpu, run[..|run| - 1]);
      DoInv(Exec(Initial(nproc, ncpu), run[..|run| - 1]), run[|run| - 1]);
    }
    InvMeans(Exec(Initial(nproc, ncpu), run));
  }

  /** Every RUNNING process is current on exactly one CPU and every current process is RUNNING. */
  ghost predicate Correspondence(s: State)
  {
    && (forall p | 0 <= p < |s.procs| && s.procs[p].state == RUNNING ::
          exists c :: 0 <= c < |s.cpus| && s.cpus[c] == Run(p))
    && (forall c | 0 <= c < |s.cpus| && !s.cpus[c].Sched? ::
          s.cpus[c].Run? && s.cpus[c].p < |s.procs| && s.procs[s.cpus[c].p].state == RUNNING)
    && (forall c, d | 0 <= c < d < |s.cpus| && s.cpus[c].Run? && s.cpus[d].Run? :: s.cpus[c].p != s.cpus[d].p)
  }

  lemma InvMeans(s: State)
    requires Inv(s)
    ensures LockFree(s) ==> Correspondence(s)
    ensures forall p | 0 <= p < |s.procs| && p != INIT && (Alive(s.procs[p]) || s.procs[p].state == ZOMBIE) ::
              0 <= s.procs[p].parent < |s.procs| && Alive(s.procs[s.procs[p].parent])
    ensures forall p | 0 <= p < |s.procs| && s.procs[p].state == SLEEPING && s.procs[p].act.InWait? ::
              !HasZombie(s.procs, p)
    ensures forall c | 0 <= c < |s.cpus| && Occupied(s.cpus[c]) ::
              s.cpus[c].p < |s.procs| && s.procs[s.cpus[c].p].memory
  {
    forall c | 0 <= c < |s.cpus| && Occupied(s.cpus[c]) ensures s.cpus[c].p < |s.procs| && s.procs[s.cpus[c].p].memory {
      assert CpuOk(s, s.cpus[c]);
      assert SlotOk(s.procs, s.cpus[c].p);
    }
    forall p | 0 <= p < |s.procs|
      ensures p != INIT && (Alive(s.procs[p]) || s.procs[p].state == ZOMBIE) ==>
                0 <= s.procs[p].parent < |s.procs| && Alive(s.procs[s.procs[p].parent])
      ensures s.procs[p].state == SLEEPING && s.procs[p].act.InWait? ==> !HasZombie(s.procs, p)
    {
      assert SlotOk(s.procs, p);
    }
    if LockFree(s) { FreeMeansCorrespondence(s); }
  }

  lemma FreeMeansCorrespondence(s: State)
    requires Inv(s) && LockFree(s)
    ensures Correspondence(s)
  {
    forall p | 0 <= p < |s.procs| && s.procs[p].state == RUNNING ensures exists c ::
      0 <= c < |s.cpus| && s.cpus[c] == Run(p) {
      assert OnCpu(s, p);
      var c :| 0 <= c < |s.cpus| && Occupied(s.cpus[c]) && s.cpus[c].p == p && !Parting(s.cpus[c]);
      assert s.cpus[c] == Run(p);
    }
    forall c | 0 <= c < |s.cpus| && !s.cpus[c].Sched? ensures s.cpus[c].Run? && s.cpus[c].p < |s.procs|
    && s.procs[s.cpus[c].p].state == RUNNING {
      assert CpuOk(s, s.cpus[c]);
    }
    forall c, d | 0 <= c < d < |s.cpus| && s.cpus[c].Run? && s.cpus[d].Run? ensures s.cpus[c].p != s.cpus[d].p {
      assert Apart(s.cpus[c], s.cpus[d]);
    }
  }
}
