/** pipewrite, piperead and pipeclose run by any number of processes, interleaved between any two
    steps, with sleep, wakeup and kill. p->lock is held from acquire or wake-up to sleep or return. */
module PipeProtocol {
  import opened PipeRing

  datatype Pc =
    | Idle(ret: int)                      // what the last pipewrite or piperead returned
    | Write(addr: seq<byte>, i: nat)      // at the head of pipewrite's loop, lock held
    | WDoze(addr: seq<byte>, i: nat)      // not killed when it looked, about to sleep, lock held
    | WSleep(addr: seq<byte>, i: nat)     // asleep on &p->nwrite
    | WWoken(addr: seq<byte>, i: nat)     // runnable, about to take the lock back
    | Read(n: nat)                        // at piperead's first loop, lock held
    | RDoze(n: nat)
    | RSleep(n: nat)                      // asleep on &p->nread
    | RWoken(n: nat)
    | Copy(n: nat, k: nat)                // in piperead's copying loop, lock held

  predicate HasLock(x: Pc) { x.Write? || x.WDoze? || x.Read? || x.RDoze? || x.Copy? }
  predicate Writing(x: Pc) { x.Write? || x.WDoze? || x.WSleep? || x.WWoken? }
  predicate Reading(x: Pc) { x.Read? || x.RDoze? || x.RSleep? || x.RWoken? || x.Copy? }

  /** `stored` and `fetched` record every byte that went in and came out. */
  datatype State = State(ring: Ring, readopen: bool, writeopen: bool, procs: seq<Pc>, killed: seq<bool>,
                         stored: seq<byte>, fetched: seq<byte>)

  datatype Action =
    | StartWrite(p: nat, addr: seq<byte>)
    | StartRead(p: nat, n: nat)
    | Relock(p: nat)
    | Step(p: nat)
    | CloseWrite(p: nat)
    | CloseRead(p: nat)
    | Kill(p: nat)

  function WakeWriters(procs: seq<Pc>): (r: seq<Pc>)
    ensures |r| == |procs|
    ensures forall i | 0 <= i < |r| :: r[i] == if procs[i].WSleep? then WWoken(procs[i].addr, procs[i].i) else procs[i]
  {
    seq(|procs|, i requires 0 <= i < |procs| => if procs[i].WSleep? then WWoken(procs[i].addr, procs[i].i)
        else procs[i])
  }

  function WakeReaders(procs: seq<Pc>): (r: seq<Pc>)
    ensures |r| == |procs|
    ensures forall i | 0 <= i < |r| :: r[i] == if procs[i].RSleep? then RWoken(procs[i].n) else procs[i]
  {
    seq(|procs|, i requires 0 <= i < |procs| => if procs[i].RSleep? then RWoken(procs[i].n) else procs[i])
  }

  predicate Locked(s: State)
  {
    exists i :: 0 <= i < |s.procs| && HasLock(s.procs[i])
  }

  function Initial(n: nat, size: nat): State
    requires 0 < size
  {
    State(Ring(seq(size, _ => 0), 0, 0), true, true, seq(n, _ => Idle(0)), seq(n, _ => false), [], [])
  }

  function WriteStep(s: State, p: nat): State
    requires p < |s.procs| == |s.killed| && (s.procs[p].Write? || s.procs[p].WDoze?) && 0 < |s.ring.data|
  {
    var me := s.procs[p];
    if me.WDoze? then s.(procs := WakeReaders(s.procs)[p := WSleep(me.addr, me.i)])
    else if me.i >= |me.addr| then s.(procs := WakeReaders(s.procs)[p := Idle(|me.addr|)])
    else if Full(s.ring) then
      if !s.readopen || s.killed[p] then s.(procs := s.procs[p := Idle(-1)])
      else s.(procs := s.procs[p := WDoze(me.addr, me.i)])
    else s.(ring := Put(s.ring, me.addr[me.i]), stored := s.stored + [me.addr[me.i]],
            procs := s.procs[p := Write(me.addr, me.i + 1)])
  }

  function ReadStep(s: State, p: nat): State
    requires p < |s.procs| == |s.killed| && 0 < |s.ring.data|
    requires s.procs[p].Read? || s.procs[p].RDoze? || s.procs[p].Copy?
  {
    var me := s.procs[p];
    if me.Read? then
      if Empty(s.ring) && s.writeopen then
        if s.killed[p] then s.(procs := s.procs[p := Idle(-1)]) else s.(procs := s.procs[p := RDoze(me.n)])
      else s.(procs := s.procs[p := Copy(me.n, 0)])
    else if me.RDoze? then s.(procs := s.procs[p := RSleep(me.n)])
    else if me.k >= me.n || Empty(s.ring) then s.(procs := WakeWriters(s.procs)[p := Idle(me.k)])
    else s.(ring := Drop(s.ring), fetched := s.fetched + [Front(s.ring)], procs := s.procs[p := Copy(me.n, me.k + 1)])
  }

  /** One action; one that is not enabled changes nothing. A process reads or writes only through
      an open end, and an end is closed only when nobody is using it: file.c closes a pipe end when
      its last reference goes. */
  function Do(s: State, a: Action): State
    requires |s.procs| == |s.killed| && 0 < |s.ring.data|
  {
    if a.p >= |s.procs| then s else
    var me := s.procs[a.p];
    match a
    case StartWrite(p, addr) =>
      if me.Idle? && s.writeopen && !Locked(s) then s.(procs := s.procs[p := Write(addr, 0)]) else s
    case StartRead(p, n) =>
      if me.Idle? && s.readopen && !Locked(s) then s.(procs := s.procs[p := Read(n)]) else s
    case Relock(p) =>
      if Locked(s) then s
      else if me.WWoken? then s.(procs := s.procs[p := Write(me.addr, me.i)])
      else if me.RWoken? then s.(procs := s.procs[p := Read(me.n)])
      else s
    case Step(p) =>
      if !HasLock(me) then s else if Writing(me) then WriteStep(s, p) else ReadStep(s, p)
    case CloseWrite(p) =>
      if !me.Idle? || Locked(s) || (exists i :: 0 <= i < |s.procs| && Writing(s.procs[i])) then s
      else s.(writeopen := false, procs := WakeReaders(s.procs))
    case CloseRead(p) =>
      if !me.Idle? || Locked(s) || (exists i :: 0 <= i < |s.procs| && Reading(s.procs[i])) then s
      else s.(readopen := false, procs := WakeWriters(s.procs))
    case Kill(p) =>
      var x := if me.WSleep? then WWoken(me.addr, me.i) else if me.RSleep? then RWoken(me.n) else me;
      s.(killed := s.killed[p := true], procs := s.procs[p := x])
  }

  // ----- invariants -----

  ghost predicate Shape(s: State)
  {
    |s.procs| == |s.killed| && 0 < |s.ring.data|
  }

  /** What process p may assume; the lock has at most one holder. */
  ghost predicate ProcOk(s: State, p: nat)
    requires p < |s.procs|
  {
    var x := s.procs[p];
    && (Writing(x) ==> s.writeopen) && (Reading(x) ==> s.readopen)
    && (x.WSleep? ==> s.readopen && (Full(s.ring) || Copying(s)))
    && (x.WDoze? ==> s.readopen && Full(s.ring))
    && (x.RDoze? ==> s.writeopen && Empty(s.ring))
    && (x.RSleep? ==> s.writeopen)
    && (x.Copy? && x.k == 0 ==> !Empty(s.ring) || !s.writeopen)
    && (HasLock(x) ==> forall q | 0 <= q < |s.procs| && q != p :: !HasLock(s.procs[q]))
  }

  ghost predicate Copying(s: State)
  {
    exists i :: 0 <= i < |s.procs| && s.procs[i].Copy?
  }

  ghost predicate Inv(s: State)
  {
    && Shape(s)
    && Queue(s.ring, s.stored, |s.fetched|) && s.fetched == s.stored[..|s.fetched|]
    && forall p | 0 <= p < |s.procs| :: ProcOk(s, p)
  }

  lemma InitialInv(n: nat, size: nat)
    requires SizeOk(size)
    ensures Inv(Initial(n, size))
  {
  }

  lemma WriteStepInv(s: State, p: nat)
    requires Inv(s) && p < |s.procs| && (s.procs[p].Write? || s.procs[p].WDoze?)
    ensures Inv(WriteStep(s, p))
  {
    var t, me := WriteStep(s, p), s.procs[p];
    if me.Write? && me.i < |me.addr| && !Full(s.ring) {
      PutQueue(s.ring, s.stored, |s.fetched|, me.addr[me.i]);
    }
    hide Queue, Full;
    assert !Copying(s) by { assert ProcOk(s, p); }
    forall q | 0 <= q < |t.procs| ensures ProcOk(t, q) {
      assert ProcOk(s, q) && ProcOk(s, p);
    }
  }

  lemma ReadStepInv(s: State, p: nat)
    requires Inv(s) && p < |s.procs| && (s.procs[p].Read? || s.procs[p].RDoze? || s.procs[p].Copy?)
    ensures Inv(ReadStep(s, p))
  {
    var t, me := ReadStep(s, p), s.procs[p];
    QueueBounds(s.ring, s.stored, |s.fetched|);
    if me.Copy? && me.k < me.n && !Empty(s.ring) {
      DropQueue(s.ring, s.stored, |s.fetched|);
    }
    hide Queue, Full;
    if !me.Copy? { assert !Copying(s) by { assert ProcOk(s, p); } }
    if t.procs[p].Copy? { assert Copying(t); }
    forall q | 0 <= q < |t.procs| ensures ProcOk(t, q) {
      assert ProcOk(s, q) && ProcOk(s, p);
      if s.procs[q].WSleep? && !Full(s.ring) { assert Copying(s); }
    }
  }

  /** Starting, relocking, closing and killing leave the ring alone. */
  lemma OtherInv(s: State, a: Action)
    requires Inv(s) && a.p < |s.procs| && !a.Step?
    ensures Inv(Do(s, a))
  {
    var t := Do(s, a);
    hide Queue, Full;
    if Copying(s) {
      var i :| 0 <= i < |s.procs| && s.procs[i].Copy?;
      assert HasLock(s.procs[i]);
      assert t.procs[i].Copy?;
    }
    forall q | 0 <= q < |t.procs| ensures ProcOk(t, q) {
      assert ProcOk(s, q) && ProcOk(s, a.p);
    }
  }

  lemma DoInv(s: State, a: Action)
    requires Inv(s)
    ensures Inv(Do(s, a))
  {
    if a.p < |s.procs| {
      if a.Step? {
        if HasLock(s.procs[a.p]) {
          if Writing(s.procs[a.p]) { WriteStepInv(s, a.p); } else { ReadStepInv(s, a.p); }
        }
      } else {
        OtherInv(s, a);
      }
    }
  }

  /** Every state a run passes through. */
  ghost function Exec(n: nat, size: nat, run: seq<Action>): (s: State)
    requires SizeOk(size)
    ensures Inv(s)
  {
    if |run| == 0 then InitialInv(n, size); Initial(n, size)
    else
      var s := Exec(n, size, run[..|run| - 1]);
      DoInv(s, run[|run| - 1]);
      Do(s, run[|run| - 1])
  }

  /** A kill wakes its process, if it is asleep here, to see that it was killed. */
  lemma KillWakes(s: State, p: nat)
    requires Shape(s) && p < |s.procs|
    ensures var x, t := s.procs[p], Do(s, Kill(p));
      && |t.procs| == |s.procs| && !t.procs[p].WSleep? && !t.procs[p].RSleep? && t.killed == s.killed[p := true]
      && (!x.WSleep? && !x.RSleep? ==> t.procs[p] == x)
      && forall q | 0 <= q < |s.procs| && q != p :: t.procs[q] == s.procs[q]
  {
  }

  /** pipeclose of an end that nobody is using: the end is closed for good, whoever slept on the other
      side is awake, and nothing else changes. */
  lemma CloseCloses(s: State, p: nat)
    requires Shape(s) && p < |s.procs| && s.procs[p].Idle? && !Locked(s)
    ensures (forall i | 0 <= i < |s.procs| :: !Writing(s.procs[i])) ==>
      var t := Do(s, CloseWrite(p));
      && !t.writeopen && t == s.(writeopen := false, procs := t.procs) && |t.procs| == |s.procs|
      && forall i | 0 <= i < |s.procs| :: !t.procs[i].RSleep? && (!s.procs[i].RSleep? ==> t.procs[i] == s.procs[i])
    ensures (forall i | 0 <= i < |s.procs| :: !Reading(s.procs[i])) ==>
      var t := Do(s, CloseRead(p));
      && !t.readopen && t == s.(readopen := false, procs := t.procs) && |t.procs| == |s.procs|
      && forall i | 0 <= i < |s.procs| :: !t.procs[i].WSleep? && (!s.procs[i].WSleep? ==> t.procs[i] == s.procs[i])
  {
  }

  lemma StaysClosed(s: State, a: Action)
    requires Shape(s)
    ensures (!s.writeopen ==> !Do(s, a).writeopen) && (!s.readopen ==> !Do(s, a).readopen)
  {
  }

  /** Pipe safety in every interleaving: bytes come out in the order they went in, at most PIPESIZE
      are in flight however often the 32-bit counters wrap, and with the lock free a writer is
      asleep only on a full pipe that still has a reader's end. */
  lemma PipeFifo(n: nat, size: nat, run: seq<Action>)
    requires SizeOk(size)
    ensures var s := Exec(n, size, run);
            && s.fetched <= s.stored && |s.stored| - |s.fetched| <= size
            && (!Locked(s) ==> forall p | 0 <= p < |s.procs| && s.procs[p].WSleep? :: s.readopen && Full(s.ring))
  {
    var s := Exec(n, size, run);
    forall p | !Locked(s) && 0 <= p < |s.procs| && s.procs[p].WSleep? ensures s.readopen && Full(s.ring) {
      assert ProcOk(s, p);
      assert forall i | 0 <= i < |s.procs| :: !HasLock(s.procs[i]);
    }
    SizeKept(n, size, run);
  }

  lemma {:induction false} SizeKept(n: nat, size: nat, run: seq<Action>)
    requires SizeOk(size)
    ensures |Exec(n, size, run).ring.data| == size && |Exec(n, size, run).procs| == n
  {
    if |run| > 0 {
      SizeKept(n, size, run[..|run| - 1]);
      DoSize(Exec(n, size, run[..|run| - 1]), run[|run| - 1]);
      hide Do;
    }
  }

  lemma DoSize(s: State, a: Action)
    requires Shape(s)
    ensures |Do(s, a).ring.data| == |s.ring.data| && |Do(s, a).procs| == |s.procs|
  {}

  // ----- the other direction: readers -----

  ghost predicate SleepingReader(s: State)
  {
    exists i :: 0 <= i < |s.procs| && s.procs[i].RSleep?
  }

  /** With the lock free, a reader is asleep only on an empty pipe whose write end is open. */
  ghost predicate ReadersFine(s: State)
  {
    !Locked(s) && SleepingReader(s) ==> Empty(s.ring) && s.writeopen
  }

  /** A writer that finds the pipe full leaves because it was killed, and no wakeup tells the
      reader that sleeps there. */
  ghost predicate SilentExit(s: State, a: Action)
  {
    && a.Step? && a.p < |s.procs| == |s.killed| && s.procs[a.p].Write?
    && s.procs[a.p].i < |s.procs[a.p].addr| && Full(s.ring) && (!s.readopen || s.killed[a.p])
    && SleepingReader(s)
  }

  predicate InWrite(x: Pc) { x.Write? || x.WDoze? }

  /** While a reader sleeps the pipe is empty, or a writer holds the lock and has yet to wake it. */
  ghost predicate ReadersHeld(s: State)
  {
    SleepingReader(s) ==> Empty(s.ring) || exists i :: 0 <= i < |s.procs| && InWrite(s.procs[i])
  }

  lemma HeldMeansFine(s: State)
    requires Inv(s) && ReadersHeld(s)
    ensures ReadersFine(s)
  {
    if !Locked(s) && SleepingReader(s) {
      var r :| 0 <= r < |s.procs| && s.procs[r].RSleep?;
      assert ProcOk(s, r);
      if i :| 0 <= i < |s.procs| && InWrite(s.procs[i]) { assert HasLock(s.procs[i]); }
    }
  }

  lemma StepKeepsHeld(s: State, p: nat)
    requires Inv(s) && ReadersHeld(s) && p < |s.procs| && HasLock(s.procs[p]) && !SilentExit(s, Step(p))
    ensures ReadersHeld(Do(s, Step(p)))
  {
    var t, me := Do(s, Step(p)), s.procs[p];
    assert ProcOk(s, p);
    hide Queue, Full;
    if SleepingReader(t) {
      var r :| 0 <= r < |t.procs| && t.procs[r].RSleep?;
      if r != p { assert s.procs[r].RSleep?; assert SleepingReader(s); assert ProcOk(s, r); }
      if InWrite(me) {
        assert InWrite(t.procs[p]);
      } else {
        assert forall i | 0 <= i < |s.procs| :: !InWrite(s.procs[i]);
      }
    }
  }

  lemma OtherKeepsHeld(s: State, a: Action)
    requires Inv(s) && ReadersHeld(s) && a.p < |s.procs| && !a.Step?
    ensures ReadersHeld(Do(s, a))
  {
    var t := Do(s, a);
    hide Queue, Full;
    if SleepingReader(t) {
      var r :| 0 <= r < |t.procs| && t.procs[r].RSleep?;
      assert s.procs[r].RSleep?;
      assert SleepingReader(s);
      if w :| 0 <= w < |s.procs| && InWrite(s.procs[w]) {
        assert HasLock(s.procs[w]) && Locked(s);
        assert InWrite(t.procs[w]);
      }
    }
  }

  lemma DoKeepsHeld(s: State, a: Action)
    requires Inv(s) && ReadersHeld(s) && !SilentExit(s, a)
    ensures ReadersHeld(Do(s, a))
  {
    if a.p < |s.procs| {
      if !a.Step? { OtherKeepsHeld(s, a); }
      else if HasLock(s.procs[a.p]) { StepKeepsHeld(s, a.p); }
    }
  }

  /** A silent exit strands the sleeping reader: the lock is free, the pipe is full. */
  lemma SilentExitStrands(s: State, a: Action)
    requires Inv(s) && SilentExit(s, a)
    ensures !ReadersFine(Do(s, a))
  {
    var t := Do(s, a);
    assert ProcOk(s, a.p);
    forall i | 0 <= i < |t.procs| ensures !HasLock(t.procs[i]) {}
    var r :| 0 <= r < |s.procs| && s.procs[r].RSleep?;
    assert t.procs[r].RSleep?;
    FullMeans(s.ring, s.stored, |s.fetched|);
    SizeBounds(|s.ring.data|);
  }

  ghost predicate NoSilentExit(n: nat, size: nat, run: seq<Action>)
    requires SizeOk(size)
  {
    forall k | 0 <= k < |run| :: !SilentExit(Exec(n, size, run[..k]), run[k])
  }

  lemma {:induction false} HeldThroughout(n: nat, size: nat, run: seq<Action>)
    requires SizeOk(size) && NoSilentExit(n, size, run)
    ensures ReadersHeld(Exec(n, size, run))
  {
    var m := |run| - 1;
    if |run| > 0 {
      forall k | 0 <= k < m ensures !SilentExit(Exec(n, size, run[..m][..k]), run[..m][k]) {
        assert run[..m][..k] == run[..k];
      }
      HeldThroughout(n, size, run[..m]);
      DoKeepsHeld(Exec(n, size, run[..m]), run[m]);
    }
  }

  /** Readers are never stranded in a run exactly if no writer, killed on a full pipe, leaves while
      a reader sleeps. */
  lemma ReadersAwakened(n: nat, size: nat, run: seq<Action>)
    requires SizeOk(size)
    ensures (forall k | 0 <= k <= |run| :: ReadersFine(Exec(n, size, run[..k]))) <==> NoSilentExit(n, size, run)
  {
    hide Do, SilentExit, ReadersFine, ProcOk, Queue;
    if NoSilentExit(n, size, run) {
      forall k | 0 <= k <= |run| ensures ReadersFine(Exec(n, size, run[..k])) {
        forall j | 0 <= j < k ensures !SilentExit(Exec(n, size, run[..k][..j]), run[..k][j]) {
          assert run[..k][..j] == run[..j];
        }
        HeldThroughout(n, size, run[..k]);
        HeldMeansFine(Exec(n, size, run[..k]));
      }
    } else {
      var k :| 0 <= k < |run| && SilentExit(Exec(n, size, run[..k]), run[k]);
      SilentExitStrands(Exec(n, size, run[..k]), run[k]);
      assert run[..k + 1][..k] == run[..k];
      assert Exec(n, size, run[..k + 1]) == Do(Exec(n, size, run[..k]), run[k]);
    }
  }

  ghost predicate NoKill(run: seq<Action>)
  {
    forall k | 0 <= k < |run| :: !run[k].Kill?
  }

  lemma {:induction false} NobodyKilled(n: nat, size: nat, run: seq<Action>)
    requires SizeOk(size) && NoKill(run)
    ensures var s := Exec(n, size, run); forall p | 0 <= p < |s.killed| :: !s.killed[p]
  {
    hide Do, Queue, ProcOk;
    if |run| > 0 {
      var m := |run| - 1;
      NobodyKilled(n, size, run[..m]);
      OnlyKillKills(Exec(n, size, run[..m]), run[m]);
      assert Exec(n, size, run) == Do(Exec(n, size, run[..m]), run[m]);
    } else {
      assert Exec(n, size, run).killed == seq(n, _ => false);
    }
  }

  lemma OnlyKillKills(s: State, a: Action)
    requires Shape(s) && !a.Kill?
    ensures Do(s, a).killed == s.killed
  {
  }

  /** In a run without kill a reader is asleep, with the lock free, only on an empty pipe whose
      write end is open. */
  lemma ReadersAwakenedWithoutKill(n: nat, size: nat, run: seq<Action>)
    requires SizeOk(size) && NoKill(run)
    ensures NoSilentExit(n, size, run) && ReadersFine(Exec(n, size, run))
  {
    forall k | 0 <= k < |run| ensures !SilentExit(Exec(n, size, run[..k]), run[k]) {
      var s := Exec(n, size, run[..k]);
      NobodyKilled(n, size, run[..k]);
      if SleepingReader(s) {
        var r :| 0 <= r < |s.procs| && s.procs[r].RSleep?;
        assert ProcOk(s, r);
      }
    }
    ReadersAwakened(n, size, run);
    assert run[..|run|] == run;
  }

  // ----- a stranded reader -----

  lemma ExecOne(n: nat, size: nat, run: seq<Action>, a: Action)
    requires SizeOk(size)
    ensures Exec(n, size, run + [a]) == Do(Exec(n, size, run), a)
  {
    assert (run + [a])[..|run|] == run;
  }

  /** Process 0 sleeps in piperead; process 1 has stored k bytes of its write. */
  ghost predicate Midway(s: State, addr: seq<byte>, k: nat, killed: bool)
  {
    && s.procs == [RSleep(1), Write(addr, k)] && s.killed == [false, killed]
    && s.readopen && s.writeopen && |s.stored| == k && s.fetched == []
  }

  lemma {:induction false} StoreUpTo(size: nat, addr: seq<byte>, k: nat) returns (run: seq<Action>)
    requires SizeOk(size) && k <= size < |addr|
    ensures Midway(Exec(2, size, run), addr, k, false)
  {
    if k == 0 {
      run := [StartRead(0, 1)];
      ExecOne(2, size, [], StartRead(0, 1));
      ExecOne(2, size, run, Step(0));
      run := run + [Step(0)];
      ExecOne(2, size, run, Step(0));
      run := run + [Step(0)];
      ExecOne(2, size, run, StartWrite(1, addr));
      run := run + [StartWrite(1, addr)];
      assert [] + [StartRead(0, 1)] == [StartRead(0, 1)];
      FirstSteps(size, addr);
    } else {
      run := StoreUpTo(size, addr, k - 1);
      var s := Exec(2, size, run);
      SizeKept(2, size, run);
      FullMeans(s.ring, s.stored, 0);
      ExecOne(2, size, run, Step(1));
      run := run + [Step(1)];
    }
  }

  lemma FirstSteps(size: nat, addr: seq<byte>)
    requires SizeOk(size)
    ensures var s1 := Do(Initial(2, size), StartRead(0, 1));
            Midway(Do(Do(Do(s1, Step(0)), Step(0)), StartWrite(1, addr)), addr, 0, false)
  {
    var s0 := Initial(2, size);
    assert forall i | 0 <= i < |s0.procs| :: !HasLock(s0.procs[i]);
    var s1 := Do(s0, StartRead(0, 1));
    assert s1.procs == [Read(1), Idle(0)];
    var s2 := Do(Do(s1, Step(0)), Step(0));
    assert s2.procs == [RSleep(1), Idle(0)];
    assert forall i | 0 <= i < |s2.procs| :: !HasLock(s2.procs[i]);
    var s3 := Do(s2, StartWrite(1, addr));
    assert s3.procs == [RSleep(1), Write(addr, 0)] && s3.killed == [false, false];
  }

  /** For every size there is a run that strands a reader: one process reads, another writes one
      byte more than fits and is killed before it can sleep. */
  lemma StrandedReader(size: nat) returns (run: seq<Action>)
    requires SizeOk(size)
    ensures !ReadersFine(Exec(2, size, run))
  {
    var addr: seq<byte> := seq(size + 1, _ => 0);
    run := StoreUpTo(size, addr, size);
    SizeKept(2, size, run);
    ExecOne(2, size, run, Kill(1));
    run := run + [Kill(1)];
    var t := Exec(2, size, run);
    FullMeans(t.ring, t.stored, 0);
    assert t.procs[0].RSleep? && t.procs[1] == Write(addr, size);
    SilentExitStrands(t, Step(1));
    ExecOne(2, size, run, Step(1));
    run := run + [Step(1)];
  }
}
