/** The table-scanning loops of proc.c, updating the table in place under ptable.lock. */
module ProcScan {
  import opened ProcTable

  class Table {
    var procs: seq<Proc>

    constructor (procs: seq<Proc>)
      ensures this.procs == procs
    {
      this.procs := procs;
    }

    /** wakeup1: who slept on chan is RUNNABLE, nobody sleeps on it, and nothing else has changed. */
    method WakeupChan(chan: Chan)
      modifies this
      ensures Woken(old(procs), procs, chan) && forall k | 0 <= k < |procs| :: !AsleepOn(procs[k], chan)
      ensures procs == Wakeup1(old(procs), chan)
    {
      var i := 0;
      while i < |procs|
        invariant 0 <= i <= |procs| == |old(procs)|
        invariant Woken(old(procs)[..i], procs[..i], chan) && procs[i..] == old(procs)[i..]
        invariant forall k | 0 <= k < i :: !AsleepOn(procs[k], chan)
      {
        if procs[i].state == SLEEPING && procs[i].chan == chan {
          procs := procs[i := procs[i].(state := RUNNABLE)];
        }
        i := i + 1;
      }
      assert procs[..i] == procs && old(procs)[..i] == old(procs);
      OnlyOneWay(old(procs), procs, Wakeup1(old(procs), chan), chan);
    }

    /** exit() between taking ptable.lock and sched(): wake the parent, hand the children to init,
        waking init for each zombie among them, and become a zombie. */
    method ExitUnderLock(p: nat)
      requires p < |procs|
      modifies this
      ensures procs == ExitTable(old(procs), p) && Exited(old(procs), procs, p)
    {
      hide Handed, Woken, Exited, ZombieChild;
      WakeupChan(ProcChan(procs[p].parent));
      ghost var a := procs;
      ghost var woken := false;
      var i := 0;
      NothingHanded(a, p);
      while i < |procs|
        invariant 0 <= i <= |procs| == |a|
        invariant woken <==> exists z :: 0 <= z < i && ZombieChild(a, p, z)
        invariant procs == Handed(a, p, i, woken)
      {
        HandedNext(a, p, i, woken);
        if procs[i].parent == p {
          procs := procs[i := procs[i].(parent := INIT)];
          if procs[i].state == ZOMBIE {
            WakeupChan(ProcChan(INIT));
            woken := true;
          }
        }
        i := i + 1;
      }
      AllHanded(old(procs), p, woken);
      procs := procs[p := procs[p].(state := ZOMBIE)];
    }

    /** wait()'s scan: the first zombie child, if any, and whether there are children at all. */
    method FindZombie(p: nat) returns (z: nat, havekids: bool)
      ensures z <= |procs|
      ensures z < |procs| ==> ZombieChild(procs, p, z) && forall k | 0 <= k < z :: !ZombieChild(procs, p, k)
      ensures z == |procs| ==> !HasZombie(procs, p) && havekids == HasKids(procs, p)
    {
      havekids := false;
      z := 0;
      while z < |procs|
        invariant 0 <= z <= |procs|
        invariant forall k | 0 <= k < z :: !ZombieChild(procs, p, k)
        invariant havekids <==> exists k :: 0 <= k < z && procs[k].parent == p
      {
        if procs[z].parent == p {
          havekids := true;
          if procs[z].state == ZOMBIE {
            return;
          }
        }
        z := z + 1;
      }
    }

    /** One pass of wait() under the lock by process p. */
    method WaitPass(p: nat) returns (slot: int, asleep: bool)
      requires p < |procs|
      modifies this
      ensures slot >= 0 ==> !asleep && old(ZombieChild(procs, p, slot)) && procs == old(procs)[slot := FREED]
      ensures slot < 0 ==>
                slot == -1 && old(!HasZombie(procs, p)) && (asleep <==> old(HasKids(procs, p)) && !old(procs)[p].killed)
      ensures slot < 0 ==>
                procs == if asleep then old(procs)[p := old(procs)[p].(state := SLEEPING, chan := ProcChan(p),
                    act := InWait)] else old(procs)
    {
      var z, havekids := FindZombie(p);
      if z < |procs| {
        procs := procs[z := FREED];
        return z, false;
      }
      if !havekids || procs[p].killed {
        return -1, false;
      }
      procs := procs[p := procs[p].(state := SLEEPING, chan := ProcChan(p), act := InWait)];
      return -1, true;
    }
  }

  lemma OnlyOneWay(was: seq<Proc>, now: seq<Proc>, other: seq<Proc>, chan: Chan)
    requires Woken(was, now, chan) && Woken(was, other, chan)
    ensures now == other
  {
    forall i | 0 <= i < |was|
      ensures now[i] == other[i]
    {
      if AsleepOn(was[i], chan) {
        assert now[i] == was[i].(state := RUNNABLE);
      }
    }
  }

  /** The table when the first i slots have been handed over and init has perhaps been woken. */
  ghost function Handed(a: seq<Proc>, p: nat, i: nat, woken: bool): (r: seq<Proc>)
    ensures |r| == |a|
  {
    var b := seq(|a|, k requires 0 <= k < |a| => if k < i && a[k].parent == p then a[k].(parent := INIT) else a[k]);
    if woken then Wakeup1(b, ProcChan(INIT)) else b
  }

  lemma NothingHanded(a: seq<Proc>, p: nat)
    ensures Handed(a, p, 0, false) == a
  {
  }

  lemma HandedNext(a: seq<Proc>, p: nat, i: nat, woken: bool)
    requires i < |a|
    ensures var h := Handed(a, p, i, woken);
      && h[i].parent == a[i].parent && (h[i].state == ZOMBIE <==> a[i].state == ZOMBIE)
      && (ZombieChild(a, p, i) <==> h[i].parent == p && h[i].state == ZOMBIE)
      && if a[i].parent != p then Handed(a, p, i + 1, woken) == h
         else
           && Handed(a, p, i + 1, woken) == h[i := h[i].(parent := INIT)]
           && Handed(a, p, i + 1, true) == Wakeup1(h[i := h[i].(parent := INIT)], ProcChan(INIT))
  {
    var h, next := Handed(a, p, i, woken), Handed(a, p, i + 1, woken);
    if a[i].parent == p {
      assert next == h[i := h[i].(parent := INIT)];
      var all := Handed(a, p, i + 1, true);
      assert Wakeup1(next, ProcChan(INIT)) == all;
    } else {
      assert next == h;
    }
  }

  lemma AllHanded(procs: seq<Proc>, p: nat, woken: bool)
    requires p < |procs|
    requires var a := Wakeup1(procs, ProcChan(procs[p].parent));
      woken <==> exists z :: 0 <= z < |a| && ZombieChild(a, p, z)
    ensures var h := Handed(Wakeup1(procs, ProcChan(procs[p].parent)), p, |procs|, woken);
      h[p := h[p].(state := ZOMBIE)] == ExitTable(procs, p)
  {
    var a := Wakeup1(procs, ProcChan(procs[p].parent));
    assert Handed(a, p, |procs|, false) == Reparent(a, p);
  }
}
