/** What the callers of pipewrite and piperead see, in every interleaving: each write puts in the bytes
    of its own buffer, in order, and each read takes the next bytes of the stream. The operations are
    read off the run and its states, not kept by the steps. */
module PipeStreams {
  import opened PipeRing
  import opened PipeProtocol

  datatype Ret = Running | Returned(r: int)

  /** A call of pipewrite with the bytes it put in so far, or of piperead with those it got. */
  datatype Op =
    | WriteOp(addr: seq<byte>, put: seq<byte>, ret: Ret)
    | ReadOp(n: nat, got: seq<byte>, ret: Ret)

  ghost function Fresh(was: seq<byte>, now: seq<byte>): seq<byte>
  {
    if |was| <= |now| then now[|was|..] else []
  }

  /** The calls of process p after an action of p has led from s to t. */
  ghost function Next(ops: seq<Op>, s: State, a: Action, t: State): seq<Op>
    requires a.p < |s.procs| == |t.procs|
  {
    if s.procs[a.p].Idle? then
      if t.procs[a.p].Idle? then ops
      else if a.StartWrite? then ops + [WriteOp(a.addr, [], Running)]
      else if a.StartRead? then ops + [ReadOp(a.n, [], Running)]
      else ops
    else if ops == [] then ops
    else ops[..|ops| - 1] + [Moved(ops[|ops| - 1], s, a.p, t)]
  }

  /** What went in or came out while p moved belongs to its call; a call that has come back to Idle
      has returned. */
  ghost function Moved(op: Op, s: State, p: nat, t: State): Op
    requires p < |t.procs|
  {
    var ret := if t.procs[p].Idle? then Returned(t.procs[p].ret) else Running;
    match op
    case WriteOp(addr, put, _) => WriteOp(addr, put + Fresh(s.stored, t.stored), ret)
    case ReadOp(n, got, _) => ReadOp(n, got + Fresh(s.fetched, t.fetched), ret)
  }

  /** The calls that process p makes in a run. */
  ghost function Ops(n: nat, size: nat, run: seq<Action>, p: nat): seq<Op>
    requires SizeOk(size)
  {
    if |run| == 0 then []
    else
      var m := |run| - 1;
      var ops, s, t := Ops(n, size, run[..m], p), Exec(n, size, run[..m]), Exec(n, size, run);
      SizeKept(n, size, run[..m]); SizeKept(n, size, run);
      if run[m].p == p && p < n then Next(ops, s, run[m], t) else ops
  }

  /** A write puts in the first bytes of its buffer, all of them exactly if it returns their number;
      a read returns how many bytes it got, at most what it asked for. -1 stands for a write that
      left some bytes out and a read that got none. */
  ghost predicate OpOk(op: Op)
  {
    match op
    case WriteOp(addr, put, ret) =>
      && put <= addr
      && (ret.Returned? ==> if ret.r == -1 then |put| < |addr| else ret.r == |addr| && put == addr)
    case ReadOp(n, got, ret) =>
      && |got| <= n && (ret.Returned? ==> if ret.r == -1 then got == [] else ret.r == |got|)
  }

  /** The last call is the one the process is in, with what its program counter says it has moved. */
  ghost predicate InCall(s: State, p: nat, op: Op)
    requires p < |s.procs|
  {
    var x := s.procs[p];
    && (Writing(x) ==> x.i <= |x.addr| && op == WriteOp(x.addr, x.addr[..x.i], Running))
    && (Reading(x) ==> op.ReadOp? && op.ret.Running? && op.n == x.n && |op.got| == (if x.Copy? then x.k else 0))
    && (x.Copy? ==> |op.got| <= |s.fetched| && op.got == s.fetched[|s.fetched| - |op.got|..])
    && (x.Idle? ==> op.ret.Returned?)
  }

  ghost predicate OpsOk(s: State, p: nat, ops: seq<Op>)
    requires p < |s.procs|
  {
    && (forall j | 0 <= j < |ops| :: OpOk(ops[j]) && (j < |ops| - 1 ==> ops[j].ret.Returned?))
    && (ops == [] ==> s.procs[p].Idle?)
    && (ops != [] ==> InCall(s, p, ops[|ops| - 1]))
  }

  /** An action of another process leaves the call alone. */
  lemma OtherOpsOk(s: State, a: Action, p: nat, ops: seq<Op>)
    requires Inv(s) && p < |s.procs| && OpsOk(s, p, ops) && a.p != p
    ensures |Do(s, a).procs| == |s.procs| && OpsOk(Do(s, a), p, ops)
  {
    DoSize(s, a);
    OtherKeeps(s, a, p);
    hide OpOk, Inv, Do;
  }

  /** What another process does to p is to wake it. */
  lemma OtherKeeps(s: State, a: Action, p: nat)
    requires Inv(s) && p < |s.procs| && a.p != p
    ensures var x, t := s.procs[p], Do(s, a);
      && |t.procs| == |s.procs| && (x.Copy? ==> t.fetched == s.fetched)
      && var y := t.procs[p];
      || y == x || (x.WSleep? && y == WWoken(x.addr, x.i)) || (x.RSleep? && y == RWoken(x.n))
  {
    DoSize(s, a);
    assert ProcOk(s, p);
    hide Queue, Full;
  }

  lemma StartOpsOk(s: State, a: Action, ops: seq<Op>)
    requires Inv(s) && a.p < |s.procs| && s.procs[a.p].Idle? && OpsOk(s, a.p, ops)
    ensures |Do(s, a).procs| == |s.procs| && OpsOk(Do(s, a), a.p, Next(ops, s, a, Do(s, a)))
  {
    DoSize(s, a);
  }

  /** Waking, killing and closing move no bytes and finish no call. */
  lemma StillOpsOk(s: State, a: Action, ops: seq<Op>)
    requires Inv(s) && a.p < |s.procs| && !s.procs[a.p].Idle? && !a.Step? && OpsOk(s, a.p, ops)
    ensures |Do(s, a).procs| == |s.procs| && OpsOk(Do(s, a), a.p, Next(ops, s, a, Do(s, a)))
  {
    DoSize(s, a);
    hide Inv;
    var t, last := Do(s, a), ops[|ops| - 1];
    assert t.stored == s.stored && t.fetched == s.fetched && !t.procs[a.p].Idle?;
    assert Moved(last, s, a.p, t) == last;
    assert Next(ops, s, a, t) == ops;
  }

  lemma WriteOpsOk(s: State, p: nat, ops: seq<Op>)
    requires Inv(s) && p < |s.procs| && (s.procs[p].Write? || s.procs[p].WDoze?) && OpsOk(s, p, ops)
    ensures OpsOk(WriteStep(s, p), p, Next(ops, s, Step(p), WriteStep(s, p)))
  {
    hide ProcOk, Queue, Full;
    var t, me, last := WriteStep(s, p), s.procs[p], ops[|ops| - 1];
    assert Moved(last, s, p, t).WriteOp?;
    if t.procs[p].Write? {
      assert me.addr[..me.i + 1] == me.addr[..me.i] + [me.addr[me.i]];
    } else {
      assert t.stored == s.stored;
    }
  }

  lemma ReadOpsOk(s: State, p: nat, ops: seq<Op>)
    requires Inv(s) && p < |s.procs| && (s.procs[p].Read? || s.procs[p].RDoze? || s.procs[p].Copy?)
    requires OpsOk(s, p, ops)
    ensures OpsOk(ReadStep(s, p), p, Next(ops, s, Step(p), ReadStep(s, p)))
  {
    hide ProcOk, Queue, Full;
    var t, me, last := ReadStep(s, p), s.procs[p], ops[|ops| - 1];
    var now := Moved(last, s, p, t);
    if me.Copy? && t.procs[p].Copy? {
      assert now.got == last.got + [Front(s.ring)];
      assert t.fetched[|t.fetched| - |now.got|..] == now.got;
    } else {
      assert t.fetched == s.fetched && now.got == last.got;
    }
  }

  lemma DoOpsOk(s: State, a: Action, p: nat, ops: seq<Op>)
    requires Inv(s) && p < |s.procs| && OpsOk(s, p, ops)
    ensures |Do(s, a).procs| == |s.procs|
    ensures OpsOk(Do(s, a), p, if a.p == p then Next(ops, s, a, Do(s, a)) else ops)
  {
    DoSize(s, a);
    hide OpOk, InCall;
    if a.p != p {
      OtherOpsOk(s, a, p, ops);
    } else if s.procs[p].Idle? {
      StartOpsOk(s, a, ops);
    } else if a.Step? && HasLock(s.procs[p]) {
      if Writing(s.procs[p]) { WriteOpsOk(s, p, ops); } else { ReadOpsOk(s, p, ops); }
    } else if a.Step? {
      StillCall(s, a, ops);
    } else {
      StillOpsOk(s, a, ops);
    }
  }

  lemma StillCall(s: State, a: Action, ops: seq<Op>)
    requires Inv(s) && a.Step? && a.p < |s.procs| && !HasLock(s.procs[a.p]) && !s.procs[a.p].Idle?
    requires OpsOk(s, a.p, ops)
    ensures Do(s, a) == s && Next(ops, s, a, s) == ops
  {
    var last := ops[|ops| - 1];
    assert Moved(last, s, a.p, s) == last;
  }

  /** Every call in every run, finished or not. */
  lemma {:induction false} CallsExact(n: nat, size: nat, run: seq<Action>, p: nat)
    requires SizeOk(size) && p < n
    ensures |Exec(n, size, run).procs| == n && OpsOk(Exec(n, size, run), p, Ops(n, size, run, p))
  {
    hide Do, OpOk, InCall;
    SizeKept(n, size, run);
    if |run| > 0 {
      var m := |run| - 1;
      CallsExact(n, size, run[..m], p);
      DoOpsOk(Exec(n, size, run[..m]), run[m], p, Ops(n, size, run[..m], p));
    }
  }

  /** Why a call returns: a write gives up exactly on a full pipe whose readers are gone or when it is
      killed; a read that returns fewer bytes than it asked for has emptied the pipe, and one that
      returns none has found it at its end. */
  lemma WhyReturned(n: nat, size: nat, run: seq<Action>, p: nat)
    requires SizeOk(size) && p < n && |Exec(n, size, run).procs| == |Do(Exec(n, size, run), Step(p)).procs| == n
    ensures var s := Exec(n, size, run);
      var x, y := s.procs[p], Do(s, Step(p)).procs[p];
      && (Writing(x) && y.Idle? ==> (y.ret == -1 <==> x.i < |x.addr|))
      && (x.Write? ==> (y == Idle(-1) <==> x.i < |x.addr| && Full(s.ring) && (!s.readopen || s.killed[p])))
      && (x.Read? ==> (y == Idle(-1) <==> s.killed[p] && Empty(s.ring) && s.writeopen))
      && (y == Idle(-1) ==> x == y || x.Write? || x.Read?)
      && (x.Copy? && y.Idle? && y.ret < x.n ==> Empty(s.ring))
      && (x.Copy? && y == Idle(0) && 0 < x.n ==> Empty(s.ring) && !s.writeopen)
  {
    var s := Exec(n, size, run);
    assert ProcOk(s, p);
    hide Queue, Full;
  }

  // ---------------------------------------------------------------- the stream

  /** Who put in each byte of the stream, and who took it out. */
  ghost function Writers(n: nat, size: nat, run: seq<Action>): seq<nat>
    requires SizeOk(size)
  {
    if |run| == 0 then []
    else
      var m := |run| - 1;
      var more := Fresh(Exec(n, size, run[..m]).stored, Exec(n, size, run).stored);
      Writers(n, size, run[..m]) + seq(|more|, _ => run[m].p)
  }

  ghost function Readers(n: nat, size: nat, run: seq<Action>): seq<nat>
    requires SizeOk(size)
  {
    if |run| == 0 then []
    else
      var m := |run| - 1;
      var more := Fresh(Exec(n, size, run[..m]).fetched, Exec(n, size, run).fetched);
      Readers(n, size, run[..m]) + seq(|more|, _ => run[m].p)
  }

  /** The bytes of the stream that are p's. */
  ghost function Of(bytes: seq<byte>, who: seq<nat>, p: nat): seq<byte>
  {
    if |bytes| == 0 || |who| != |bytes| then []
    else
      var m := |bytes| - 1;
      Of(bytes[..m], who[..m], p) + if who[m] == p then [bytes[m]] else []
  }

  /** What all writes, and all reads, of a process moved. */
  ghost function Put(ops: seq<Op>): seq<byte>
  {
    if |ops| == 0 then []
    else
      var last := ops[|ops| - 1];
      Put(ops[..|ops| - 1]) + if last.WriteOp? then last.put else []
  }

  ghost function Got(ops: seq<Op>): seq<byte>
  {
    if |ops| == 0 then []
    else
      var last := ops[|ops| - 1];
      Got(ops[..|ops| - 1]) + if last.ReadOp? then last.got else []
  }

  /** An action moves at most one byte, and it is the acting process's. */
  lemma OneByte(s: State, a: Action, t: State)
    requires Inv(s) && t == Do(s, a)
    ensures |t.procs| == |s.procs|
    ensures t.stored == s.stored
            || (a.p < |s.procs| && Writing(s.procs[a.p]) && t.stored == s.stored + [t.stored[|s.stored|]])
    ensures t.fetched == s.fetched
            || (a.p < |s.procs| && Reading(s.procs[a.p]) && t.fetched == s.fetched + [t.fetched[|s.fetched|]])
  {
    DoSize(s, a);
  }

  lemma OfMore(bytes: seq<byte>, more: seq<byte>, who: seq<nat>, q: nat, p: nat)
    requires |who| == |bytes| && |more| <= 1
    ensures Of(bytes + more, who + seq(|more|, _ => q), p) == Of(bytes, who, p) + if q == p then more else []
  {
    if |more| == 1 {
      assert (bytes + more)[..|bytes|] == bytes && (who + seq(1, _ => q))[..|bytes|] == who;
      assert more == [more[0]];
    } else {
      assert bytes + more == bytes && who + seq(|more|, _ => q) == who && more == [];
    }
  }

  lemma NextPut(ops: seq<Op>, s: State, a: Action, t: State)
    requires a.p < |s.procs| == |t.procs| && OpsOk(s, a.p, ops)
    requires t.stored == s.stored || (Writing(s.procs[a.p]) && |s.stored| <= |t.stored|)
    requires t.fetched == s.fetched || (Reading(s.procs[a.p]) && |s.fetched| <= |t.fetched|)
    ensures Put(Next(ops, s, a, t)) == Put(ops) + Fresh(s.stored, t.stored)
    ensures Got(Next(ops, s, a, t)) == Got(ops) + Fresh(s.fetched, t.fetched)
  {
    if s.procs[a.p].Idle? {
      StartMoves(ops, s, a, t);
    } else {
      var init, last := ops[..|ops| - 1], ops[|ops| - 1];
      assert InCall(s, a.p, last);
      assert ops == init + [last];
      hide Put, Got, Moved;
      LastMoved(init, last, s, a.p, t);
    }
  }

  lemma StartMoves(ops: seq<Op>, s: State, a: Action, t: State)
    requires a.p < |s.procs| == |t.procs| && s.procs[a.p].Idle? && t.stored == s.stored && t.fetched == s.fetched
    ensures Put(Next(ops, s, a, t)) == Put(ops) + Fresh(s.stored, t.stored)
    ensures Got(Next(ops, s, a, t)) == Got(ops) + Fresh(s.fetched, t.fetched)
  {
    hide Put, Got;
    if a.StartWrite? { NoneYet(ops, WriteOp(a.addr, [], Running)); }
    if a.StartRead? { NoneYet(ops, ReadOp(a.n, [], Running)); }
  }

  lemma LastMoved(init: seq<Op>, last: Op, s: State, p: nat, t: State)
    requires p < |t.procs|
    requires if last.WriteOp? then Fresh(s.fetched, t.fetched) == [] else Fresh(s.stored, t.stored) == []
    ensures Put(init + [Moved(last, s, p, t)]) == Put(init + [last]) + Fresh(s.stored, t.stored)
    ensures Got(init + [Moved(last, s, p, t)]) == Got(init + [last]) + Fresh(s.fetched, t.fetched)
  {
    hide Fresh;
    var now := Moved(last, s, p, t);
    assert (init + [now])[..|init|] == init && (init + [last])[..|init|] == init;
  }

  lemma NoneYet(ops: seq<Op>, op: Op)
    requires if op.WriteOp? then op.put == [] else op.got == []
    ensures Put(ops + [op]) == Put(ops) && Got(ops + [op]) == Got(ops)
  {
    assert (ops + [op])[..|ops|] == ops;
  }

  /** In every run the bytes of the stream that are p's, in order, are exactly what the writes of p
      put in: the stream is an interleaving of the writes. The same for what was taken out. */
  lemma {:induction false} StreamExact(n: nat, size: nat, run: seq<Action>, p: nat)
    requires SizeOk(size) && p < n
    ensures var s, ops := Exec(n, size, run), Ops(n, size, run, p);
      && |Writers(n, size, run)| == |s.stored| && Of(s.stored, Writers(n, size, run), p) == Put(ops)
      && |Readers(n, size, run)| == |s.fetched| && Of(s.fetched, Readers(n, size, run), p) == Got(ops)
  {
    hide Do, OpsOk, Inv;
    if |run| > 0 {
      var m := |run| - 1;
      var s, t, a := Exec(n, size, run[..m]), Exec(n, size, run), run[m];
      StreamExact(n, size, run[..m], p);
      SizeKept(n, size, run[..m]);
      OneByte(s, a, t);
      var put, got := Fresh(s.stored, t.stored), Fresh(s.fetched, t.fetched);
      assert t.stored == s.stored + put && t.fetched == s.fetched + got;
      OfMore(s.stored, put, Writers(n, size, run[..m]), a.p, p);
      OfMore(s.fetched, got, Readers(n, size, run[..m]), a.p, p);
      if a.p == p {
        CallsExact(n, size, run[..m], p);
        NextPut(Ops(n, size, run[..m], p), s, a, t);
      }
    }
  }

  // ---------------------------------------------------------------- one writer, one reader

  /** The buffers given to the writes of a process, one after the other. */
  ghost function Buffers(ops: seq<Op>): seq<byte>
  {
    if |ops| == 0 then []
    else
      var last := ops[|ops| - 1];
      Buffers(ops[..|ops| - 1]) + if last.WriteOp? then last.addr else []
  }

  ghost predicate NoFailure(ops: seq<Op>)
  {
    forall j | 0 <= j < |ops| && ops[j].WriteOp? :: ops[j].ret != Returned(-1)
  }

  ghost predicate AllReturned(ops: seq<Op>)
  {
    forall j | 0 <= j < |ops| :: OpOk(ops[j]) && ops[j].ret.Returned?
  }

  lemma {:induction false} AllPut(ops: seq<Op>)
    requires NoFailure(ops) && AllReturned(ops)
    ensures Put(ops) == Buffers(ops)
  {
    if |ops| > 0 {
      AllPut(ops[..|ops| - 1]);
    }
  }

  lemma PutOfBuffers(s: State, p: nat, ops: seq<Op>)
    requires p < |s.procs| && OpsOk(s, p, ops) && NoFailure(ops)
    ensures Put(ops) <= Buffers(ops) && (s.procs[p].Idle? ==> Put(ops) == Buffers(ops))
  {
    if |ops| > 0 {
      AllPut(ops[..|ops| - 1]);
      if s.procs[p].Idle? { AllPut(ops); }
    }
  }

  ghost predicate OnlyWriter(run: seq<Action>, w: nat)
  {
    forall k | 0 <= k < |run| && run[k].StartWrite? :: run[k].p == w
  }

  ghost predicate OnlyReader(run: seq<Action>, r: nat)
  {
    forall k | 0 <= k < |run| && run[k].StartRead? :: run[k].p == r
  }

  /** A process gets into a write or a read only by starting one. */
  lemma OnlyByStart(s: State, a: Action, p: nat)
    requires Inv(s) && p < |s.procs|
    ensures |Do(s, a).procs| == |s.procs|
    ensures Writing(Do(s, a).procs[p]) && !Writing(s.procs[p]) ==> a.StartWrite? && a.p == p
    ensures Reading(Do(s, a).procs[p]) && !Reading(s.procs[p]) ==> a.StartRead? && a.p == p
  {
    DoSize(s, a);
    hide ProcOk, Queue, Full;
  }

  lemma {:induction false} NobodyElse(n: nat, size: nat, run: seq<Action>, p: nat)
    requires SizeOk(size) && p < n
    ensures |Exec(n, size, run).procs| == n
    ensures forall w | OnlyWriter(run, w) && p != w :: !Writing(Exec(n, size, run).procs[p])
    ensures forall r | OnlyReader(run, r) && p != r :: !Reading(Exec(n, size, run).procs[p])
  {
    hide Do, Inv;
    SizeKept(n, size, run);
    if |run| > 0 {
      var m := |run| - 1;
      NobodyElse(n, size, run[..m], p);
      SizeKept(n, size, run[..m]);
      OnlyByStart(Exec(n, size, run[..m]), run[m], p);
      assert forall w | OnlyWriter(run, w) :: OnlyWriter(run[..m], w);
      assert forall r | OnlyReader(run, r) :: OnlyReader(run[..m], r);
    }
  }

  lemma {:induction false} AllBy(n: nat, size: nat, run: seq<Action>)
    requires SizeOk(size)
    ensures forall w, k | OnlyWriter(run, w) && 0 <= k < |Writers(n, size, run)| :: Writers(n, size, run)[k] == w
    ensures forall r, k | OnlyReader(run, r) && 0 <= k < |Readers(n, size, run)| :: Readers(n, size, run)[k] == r
  {
    hide Do, Inv;
    if |run| > 0 {
      var m := |run| - 1;
      var s, t, a := Exec(n, size, run[..m]), Exec(n, size, run), run[m];
      AllBy(n, size, run[..m]);
      SizeKept(n, size, run[..m]);
      OneByte(s, a, t);
      if a.p < n { NobodyElse(n, size, run[..m], a.p); }
      assert forall w | OnlyWriter(run, w) :: OnlyWriter(run[..m], w);
      assert forall r | OnlyReader(run, r) :: OnlyReader(run[..m], r);
    }
  }

  lemma {:induction false} OfAll(bytes: seq<byte>, who: seq<nat>, p: nat)
    requires |who| == |bytes| && forall k | 0 <= k < |who| :: who[k] == p
    ensures Of(bytes, who, p) == bytes
  {
    if |bytes| > 0 {
      var m := |bytes| - 1;
      OfAll(bytes[..m], who[..m], p);
    }
  }

  /** With one writer and one reader, and no write that failed: all that the reads return, one after
      the other, is a prefix of the buffers written, one after the other, at most PIPESIZE behind
      what was put in; and what was put in is all of them when the writer is in no call. */
  lemma OneToOne(n: nat, size: nat, run: seq<Action>, w: nat, r: nat)
    requires SizeOk(size) && w < n && r < n && OnlyWriter(run, w) && OnlyReader(run, r)
    requires NoFailure(Ops(n, size, run, w))
    ensures |Exec(n, size, run).procs| == n
    ensures var s, sent, got := Exec(n, size, run), Ops(n, size, run, w), Got(Ops(n, size, run, r));
      && got <= Buffers(sent) && got <= s.stored <= Buffers(sent) && |s.stored| - |got| <= size
      && (s.procs[w].Idle? ==> s.stored == Buffers(sent))
  {
    hide Do, Inv, OpsOk;
    var s := Exec(n, size, run);
    SizeKept(n, size, run);
    StreamExact(n, size, run, w);
    StreamExact(n, size, run, r);
    AllBy(n, size, run);
    OfAll(s.stored, Writers(n, size, run), w);
    OfAll(s.fetched, Readers(n, size, run), r);
    CallsExact(n, size, run, w);
    PutOfBuffers(s, w, Ops(n, size, run, w));
    PipeFifo(n, size, run);
  }
}
