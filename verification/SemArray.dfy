/**
 `ipc/sem.c` in its own form: values and adjustments are changed in place and put back, and the
 pending queue is edited while it is walked.
 */
module SemArray {
  import opened Basics
  import opened Semaphores
  import opened SemRuns

  lemma {:induction false} EffectSnoc(c: Cells, sops: seq<SemBuf>, k: nat)
    requires ValidOps(sops, c) && k < |sops|
    ensures EffectAll(c, sops[..k + 1]) == Effect(EffectAll(c, sops[..k]), sops[k])
    decreases k
  {
    if k == 0 {
      assert sops[..1][1..] == [] && sops[..0] == [];
    } else {
      assert sops[..k + 1][1..] == sops[1..][..k] && sops[..k][1..] == sops[1..][..k - 1];
      EffectSnoc(Effect(c, sops[0]), sops[1..], k - 1);
    }
  }

  /** The first operation that is not permitted is where the array stops. */
  lemma StopsAt(c: Cells, sops: seq<SemBuf>, i: nat)
    requires ValidOps(sops, c) && i < |sops| && forall k :: 0 <= k < i ==> PermittedAt(c, sops, k)
    requires OneOp(EffectAll(c, sops[..i]), sops[i]).Stopped?
    ensures Perform(c, sops) == Stopped(i, OneOp(EffectAll(c, sops[..i]), sops[i]).why)
    decreases i
  {
    if i == 0 {
      assert sops[..0] == [];
    } else {
      var c1 := Effect(c, sops[0]);
      assert sops[..0] == [] && PermittedAt(c, sops, 0);
      assert sops[..i][1..] == sops[1..][..i - 1];
      forall k | 0 <= k < i - 1 ensures PermittedAt(c1, sops[1..], k) {
        assert PermittedAt(c, sops, k + 1) && sops[..k + 1][1..] == sops[1..][..k];
      }
      StopsAt(c1, sops[1..], i - 1);
    }
  }

  class SemArray {
    const semval: array<int>
    var undo: seq<Undo>
    var pending: seq<Waiter>

    constructor (nsems: nat)
      ensures fresh(semval) && Value() == State(Sems(Zeros(nsems), []), [])
    {
      semval := new int[nsems](i => 0);
      undo, pending := [], [];
      new;
      assert semval[..] == Zeros(nsems);
    }

    ghost function Set(): Sems
      reads this, semval
    {
      Sems(semval[..], undo)
    }

    ghost function Value(): State
      reads this, semval
    {
      State(Set(), pending)
    }

    /**
     One round of the first loop of `try_atomic_semop`. `o'` is the operation to be taken back later:
     without its SEM_UNDO if the adjustment has not been made.
     */
    method DoOp(o: SemBuf, adj0: seq<int>) returns (adj: seq<int>, o': SemBuf, a: Attempt)
      requires ValidOp(o, Cells(semval[..], adj0))
      modifies semval
      ensures var c := Cells(old(semval[..]), adj0);
              && ValidOp(o', c) && Cells(semval[..], adj) == Effect(c, o')
              && a == OneOp(c, o) && (a.Went? ==> o' == o)
    {
      ghost var c := Cells(semval[..], adj0);
      adj, o' := adj0, o;
      if o.op == 0 && semval[o.num] != 0 {
        assert c.val[o.num := c.val[o.num]] == c.val && (o.undo ==> c.adj[o.num := c.adj[o.num]] == c.adj);
        return adj, o', Stopped(0, Blocks);
      }
      semval[o.num] := semval[o.num] + o.op;
      assert semval[..] == Effect(c, o).val;
      if o.undo {
        if !UndoInRange(adj[o.num] - o.op) {
          return adj, o.(undo := false), Stopped(0, OutOfRange);
        }
        adj := adj[o.num := adj[o.num] - o.op];
      }
      if semval[o.num] < 0 {
        a := Stopped(0, Blocks);
      } else if semval[o.num] > SEMVMX {
        a := Stopped(0, OutOfRange);
      } else {
        a := Went(Cells(semval[..], adj));
      }
    }

    /** The second loop: take back the operations last, last - 1, ..., 0. */
    method TakeBack(sops: seq<SemBuf>, last: int, adj0: seq<int>, ghost c: Cells) returns (adj: seq<int>)
      requires ValidOps(sops, c) && -1 <= last < |sops| && Cells(semval[..], adj0) == EffectAll(c, sops[..last + 1])
      modifies semval
      ensures Cells(semval[..], adj) == c
    {
      adj := adj0;
      var i := last;
      while i >= 0
        invariant -1 <= i < |sops|
        invariant Cells(semval[..], adj) == EffectAll(c, sops[..i + 1])
        decreases i
      {
        EffectSnoc(c, sops, i);
        var o := sops[i];
        ghost var ci := EffectAll(c, sops[..i]);
        semval[o.num] := semval[o.num] - o.op;
        assert semval[..] == ci.val;
        if o.undo {
          adj := adj[o.num := adj[o.num] + o.op];
          assert adj == ci.adj;
        }
        i := i - 1;
      }
      assert sops[..0] == [];
    }

    /**
     The loops of `try_atomic_semop` on the values and one process's adjustments `adj0`: perform the
     operations, and take them back if one is stopped, or on request.
     */
    method TryCells(sops0: seq<SemBuf>, adj0: seq<int>, doUndo: bool) returns (result: int, adj: seq<int>)
      requires ValidOps(sops0, Cells(semval[..], adj0))
      modifies semval
      ensures var a := Perform(Cells(old(semval[..]), adj0), sops0);
              && result == Code(a, sops0)
              && Cells(semval[..], adj) == if a.Went? && !doUndo then a.c else Cells(old(semval[..]), adj0)
    {
      hide OneOp, Effect, Perform;
      ghost var c := Cells(semval[..], adj0);
      adj := adj0;
      PerformIff(c, sops0);
      var i := 0;
      assert sops0[..0] == [];
      while i < |sops0|
        invariant 0 <= i <= |sops0|
        invariant forall k :: 0 <= k < i ==> PermittedAt(c, sops0, k)
        invariant Cells(semval[..], adj) == EffectAll(c, sops0[..i])
      {
        EffectSnoc(c, sops0, i);
        var o', a;
        adj, o', a := DoOp(sops0[i], adj);
        if a.Stopped? {
          StopsAt(c, sops0, i);
          result := Code(Stopped(i, a.why), sops0);
          var sops := sops0[i := o'];
          assert sops[..i] == sops0[..i];
          EffectSnoc(c, sops, i);
          adj := TakeBack(sops, i, adj, c);
          return;
        }
        assert PermittedAt(c, sops0, i);
        i := i + 1;
      }
      assert sops0[..i] == sops0;
      result := 0;
      if doUndo { adj := TakeBack(sops0, i - 1, adj, c); }
    }

    /** `try_atomic_semop` for process `pid`. */
    method TryAtomicSemop(pid: nat, sops: seq<SemBuf>, doUndo: bool) returns (result: int)
      requires ValidFor(Set(), pid, sops)
      modifies this`undo, semval
      ensures (result, Set()) == Try(old(Set()), pid, sops, doUndo)
      ensures Answers(CellsOf(old(Set()), pid), sops, result)
      ensures if result == 0 && !doUndo then ChangesBy(old(Set()), Set(), pid, sops) else Set() == old(Set())
    {
      hide Perform, Answers, ChangesBy;
      TryMeans(Set(), pid, sops, doUndo);
      ghost var s0 := Set();
      var k := LookupUndo(pid);
      var adj := if k < |undo| then undo[k].adj else [];
      PerformIff(CellsOf(s0, pid), sops);
      result, adj := TryCells(sops, adj, doUndo);
      if k < |undo| {
        assert undo[k := undo[k]] == undo;
        undo := undo[k := Undo(pid, adj)];
      }
    }

    /** Search the list of adjustments of the set. */
    method LookupUndo(pid: nat) returns (k: nat)
      ensures k == FindUndo(undo, pid)
    {
      k := 0;
      while k < |undo| && undo[k].pid != pid
        invariant 0 <= k <= |undo| && FindUndo(undo, pid) == k + FindUndo(undo[k..], pid)
      {
        assert undo[k..][1..] == undo[k + 1..];
        k := k + 1;
      }
    }

    /** `update_queue`; also the processes that are done, with their status. */
    method UpdateQueue() returns (done: seq<Waiter>)
      requires QueueValid(Set(), pending)
      modifies this, semval
      ensures var p := Update(old(Set()), old(pending));
              Set() == p.s && pending == p.queue && done == p.done
    {
      hide Try, Before, ValidFor, Answers, ChangesBy;
      ghost var whole := Update(Set(), pending);
      done := [];
      BeforeNothing(whole);
      var i := 0;
      while i < |pending|
        invariant 0 <= i <= |pending| && QueueValid(Set(), pending[i..])
        invariant whole == Before(pending[..i], done, Update(Set(), pending[i..]))
        decreases |pending| - i
      {
        var q := pending[i];
        ghost var s, rest := Set(), pending[i + 1..];
        assert pending[i..][0] == q && pending[i..][1..] == rest && pending[..i] + [q] == pending[..i + 1];
        if q.status == 1 {
          BeforeKeep(pending[..i], done, q, Update(s, rest));
          i := i + 1;
        } else {
          assert ValidFor(s, q.pid, q.sops);
          var error := TryAtomicSemop(q.pid, q.sops, q.alter);
          TryShape(s, q.pid, q.sops, q.alter);
          ShapeKeepsValid(s, Set(), rest);
          if error > 0 {
            BeforeKeep(pending[..i], done, q, Update(s, rest));
            i := i + 1;
          } else if error == 0 && q.alter {
            BeforeAll(pending[..i], done, Pass(s, [q.(status := 1)] + rest, []));
            pending := pending[i := q.(status := 1)];
            assert pending == pending[..i] + ([q.(status := 1)] + rest);
            return;
          } else {
            BeforeFinish(pending[..i], done, q.(status := error), Update(Set(), rest));
            assert (pending[..i] + rest)[..i] == pending[..i];
            done := done + [q.(status := error)];
            pending := pending[..i] + pending[i + 1..];
            assert pending[i..] == rest;
          }
        }
      }
      assert pending[i..] == [] && pending[..i] == pending;
      BeforeAll(pending[..i], done, Pass(Set(), [], []));
    }

    /** The first loop of `sys_semop`: check the semaphore numbers and classify the operations. */
    method Classify(sops: seq<SemBuf>) returns (ok: bool, undos: bool, decrease: bool, alter: bool)
      ensures ok <==> forall i :: 0 <= i < |sops| ==> sops[i].num < semval.Length
      ensures ok ==> (undos <==> UsesUndo(sops)) && (decrease <==> Decreases(sops)) && (alter <==> Alters(sops))
    {
      undos, decrease, alter := false, false, false;
      var i := 0;
      while i < |sops|
        invariant 0 <= i <= |sops|
        invariant forall k :: 0 <= k < i ==> sops[k].num < semval.Length
        invariant undos <==> exists k :: 0 <= k < i && sops[k].undo
        invariant decrease <==> exists k :: 0 <= k < i && sops[k].op < 0
        invariant alter <==> exists k :: 0 <= k < i && sops[k].op > 0
      {
        if sops[i].num >= semval.Length { return false, undos, decrease, alter; }
        if sops[i].undo { undos := true; }
        if sops[i].op < 0 { decrease := true; }
        if sops[i].op > 0 { alter := true; }
        i := i + 1;
      }
      ok, alter := true, alter || decrease;
    }

    /** `sys_semop`, until it returns or goes to sleep. A refused call changes nothing. */
    method SysSemop(pid: nat, sops: seq<SemBuf>, semopm: nat) returns (reply: Reply, done: seq<Waiter>)
      requires StateOk(Value())
      modifies this, semval
      ensures if |sops| < 1 then reply == Refused(EINVAL)
              else if |sops| > semopm then reply == Refused(E2BIG)
              else if !Enabled(old(Value()), Semop(pid, sops)) then reply == Refused(EFBIG)
              else !reply.Refused? && (Value(), done) == Step(old(Value()), Semop(pid, sops))
                   && (reply == Sleeping <==> done == [])
                   && (reply.Returned? ==> done != [] && reply.code == done[0].status <= 0)
      ensures reply.Refused? ==> Value() == old(Value()) && done == []
      ensures !reply.Refused? ==>
                var c := CellsOf(EnsureUndo(old(Value()).s, pid, sops), pid);
                && ValidOps(sops, c) && (reply.Returned? ==> Answers(c, sops, reply.code))
                && (reply == Sleeping <==> exists k: nat :: FirstBad(c, sops, k) && MustWait(c, sops, k) && !sops[k].nowait)
    {
      hide Try, Update, ValidFor, FindUndo, Alters, Decreases, UsesUndo, Answers, ChangesBy, ValidOps, FirstBad, MustWait;
      done := [];
      if |sops| < 1 { return Refused(EINVAL), []; }
      if |sops| > semopm { return Refused(E2BIG), []; }
      var ok, undos, decrease, alter := Classify(sops);
      if !ok { return Refused(EFBIG), []; }
      EnsureValid(Value(), pid, sops);
      SemopAnswer(Value(), pid, sops);
      if undos {
        var k := LookupUndo(pid);
        if k == |undo| {
          var zeros := ZeroSeq(semval.Length);
          undo := [Undo(pid, zeros)] + undo;
        }
      }
      ghost var s := Set();
      var error := TryAtomicSemop(pid, sops, false);
      TryShape(s, pid, sops, false);
      ShapeKeepsValid(s, Set(), pending);
      var w := Waiter(pid, sops, decrease, error);
      if error <= 0 {
        if alter { done := UpdateQueue(); }
        assert [w] + [] == [w];
        done := [w] + done;
        reply := Returned(error);
      } else {
        w := w.(status := -EINTR);
        pending := if alter then pending + [w] else [w] + pending;
        reply := Sleeping;
      }
    }

    method ZeroSeq(n: nat) returns (z: seq<int>)
      ensures z == Zeros(n)
    {
      z := [];
      for i := 0 to n
        invariant z == Zeros(i)
      {
        z := z + [0];
      }
    }

    /** The rest of `sys_semop` when the sleeper at position `k` of the queue runs again. */
    method Resume(k: nat) returns (reply: Reply, done: seq<Waiter>)
      requires StateOk(Value()) && k < |pending|
      modifies this, semval
      ensures (Value(), done) == Step(old(Value()), if old(pending)[k].status == 1 then Retry(k) else Interrupt(k))
      ensures reply.Returned? && old(pending)[k].status == 1 ==> done != [] && reply.code == done[0].status
      ensures reply.Returned? && old(pending)[k].status != 1 ==> reply.code == old(pending)[k].status
      ensures reply == Sleeping ==> Value() == State(old(Set()), old(pending)[k := old(pending)[k].(status := -EINTR)])
      ensures old(pending)[k].status == 1 ==>
                var c, sops := CellsOf(old(Set()), old(pending)[k].pid), old(pending)[k].sops;
                && ValidOps(sops, c) && (reply.Returned? ==> Answers(c, sops, reply.code))
                && (reply == Sleeping <==> exists i: nat :: FirstBad(c, sops, i) && MustWait(c, sops, i) && !sops[i].nowait)
    {
      hide Try, Update, ValidFor, FindUndo, Decreases, UsesUndo, Answers, ChangesBy, FirstBad, MustWait, ValidOps;
      var q := pending[k];
      var _, _, _, alter := Classify(q.sops);
      ResumeValid(Value(), k);
      if q.status == 1 {
        RetryAnswer(Value(), k);
        ghost var s := Set();
        var error := TryAtomicSemop(q.pid, q.sops, false);
        TryShape(s, q.pid, q.sops, false);
        if error > 0 {
          pending := pending[k := q.(status := -EINTR)];
          return Sleeping, [];
        }
        pending := pending[..k] + pending[k + 1..];
        ShapeKeepsValid(s, Set(), pending);
        done := [];
        if alter { done := UpdateQueue(); }
        assert [q.(status := error)] + [] == [q.(status := error)];
        return Returned(error), [q.(status := error)] + done;
      } else {
        pending := pending[..k] + pending[k + 1..];
        done := [];
        if alter { done := UpdateQueue(); }
        assert [] + done == done;
        return Returned(q.status), done;
      }
    }

    /** The loop of `sem_exit` that makes the adjustments of a process. */
    method MakeAdjustments(adj: seq<int>)
      modifies semval
      ensures semval[..] == Adjusted(old(semval[..]), adj)
    {
      for i := 0 to semval.Length
        invariant forall n :: 0 <= n < i ==> semval[n] == Max0(old(semval[n]) + if n < |adj| then adj[n] else 0)
        invariant forall n :: i <= n < semval.Length ==> semval[n] == old(semval[n])
      {
        if i < |adj| {
          semval[i] := semval[i] + adj[i];
        }
        if semval[i] < 0 {
          semval[i] := 0;
        }
      }
    }

    /** `sem_exit` for this set: forget the sleeper, make its adjustments, look at the queue. */
    method SemExit(pid: nat) returns (done: seq<Waiter>)
      requires StateOk(Value())
      modifies this, semval
      ensures (Value(), done) == Step(old(Value()), Exit(pid))
    {
      hide Update, ValidFor, FindUndo;
      ghost var st := Value();
      RemoveSleeper(pid);
      var k := LookupUndo(pid);
      if k == |undo| { return []; }
      var u := undo[k];
      undo := undo[..k] + undo[k + 1..];
      MakeAdjustments(u.adj);
      ExitValid(st, pid);
      done := UpdateQueue();
      assert [] + done == done;
    }

    method RemoveSleeper(pid: nat)
      modifies this`pending
      ensures pending == WithoutPid(old(pending), pid)
    {
      var i, rest := |pending|, [];
      while i > 0
        invariant 0 <= i <= |pending| && rest == WithoutPid(pending[i..], pid)
      {
        i := i - 1;
        assert pending[i..] == [pending[i]] + pending[i + 1..];
        if pending[i].pid != pid { rest := [pending[i]] + rest; }
      }
      assert pending[0..] == pending;
      pending := rest;
    }
  }

  const EINVAL := 22
  const E2BIG := 7
  const EFBIG := 27

  /** Refused before anything is tried, returned with a code, or asleep. */
  datatype Reply = Refused(errno: int) | Returned(code: int) | Sleeping

  lemma ResumeValid(st: State, k: nat)
    requires StateOk(st) && k < |st.queue|
    ensures ValidFor(st.s, st.queue[k].pid, st.queue[k].sops) && QueueValid(st.s, RemoveAt(st.queue, k))
    ensures forall i :: 0 <= i < |st.queue[k].sops| ==> st.queue[k].sops[i].num < |st.s.val|
  {
  }

  /** The rest of a pass, preceded by what it has kept and finished so far. */
  function Before(kept: seq<Waiter>, done: seq<Waiter>, p: Pass): Pass {
    Pass(p.s, kept + p.queue, done + p.done)
  }

  lemma BeforeNothing(p: Pass)
    ensures Before([], [], p) == p
  {
  }

  lemma BeforeKeep(kept: seq<Waiter>, done: seq<Waiter>, w: Waiter, p: Pass)
    ensures Before(kept, done, Keep(w, p)) == Before(kept + [w], done, p)
  {
  }

  lemma BeforeFinish(kept: seq<Waiter>, done: seq<Waiter>, w: Waiter, p: Pass)
    ensures Before(kept, done, Finish(w, p)) == Before(kept, done + [w], p)
  {
  }

  lemma BeforeAll(kept: seq<Waiter>, done: seq<Waiter>, p: Pass)
    requires p.done == []
    ensures Before(kept, done, p) == Pass(p.s, kept + p.queue, done)
  {
  }
}
