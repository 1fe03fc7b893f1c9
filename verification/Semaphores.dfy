/**
 System V semaphore sets: operation arrays that take effect as a whole or not at all, the queue of
 sleeping processes, and the adjustments undone when a process exits.
 */
module Semaphores {

  const SEMVMX := 32767
  const SEMAEM := 32767

  const EAGAIN := 11
  const ERANGE := 34
  const EINTR := 4

  /** One operation of an array; `nowait` and `undo` are its flags IPC_NOWAIT and SEM_UNDO. */
  datatype SemBuf = SemBuf(num: nat, op: int, nowait: bool, undo: bool)

  /** The adjustments of one process. */
  datatype Undo = Undo(pid: nat, adj: seq<int>)

  /** A sleeping process: `alter` says that one of its operations is a decrease; status 1 asks it to retry. */
  datatype Waiter = Waiter(pid: nat, sops: seq<SemBuf>, alter: bool, status: int)

  // ---- one operation array

  /** The values and the adjustments that an array of operations works on. */
  datatype Cells = Cells(val: seq<int>, adj: seq<int>)

  predicate UndoInRange(u: int) {
    -SEMAEM - 1 <= u <= SEMAEM
  }

  predicate ValidOp(o: SemBuf, c: Cells) {
    o.num < |c.val| && (o.undo ==> o.num < |c.adj|)
  }

  predicate ValidOps(sops: seq<SemBuf>, c: Cells) {
    forall i :: 0 <= i < |sops| ==> ValidOp(sops[i], c)
  }

  /** What stops an operation: it has to wait, or it leaves the permitted range. */
  datatype Stop = Blocks | OutOfRange

  datatype Attempt = Went(c: Cells) | Stopped(at: nat, why: Stop)

  function AddTo(s: seq<int>, n: nat, x: int): seq<int>
    requires n < |s|
  {
    s[n := s[n] + x]
  }

  /** The effect of one operation on the cells, whether or not it is permitted. */
  function Effect(c: Cells, o: SemBuf): Cells
    requires ValidOp(o, c)
  {
    Cells(AddTo(c.val, o.num, o.op), if o.undo then AddTo(c.adj, o.num, -o.op) else c.adj)
  }

  predicate UndoOverflows(c: Cells, o: SemBuf)
    requires ValidOp(o, c)
  {
    o.undo && !UndoInRange(c.adj[o.num] - o.op)
  }

  /** One operation, with the tests in the order of the source. */
  function OneOp(c: Cells, o: SemBuf): Attempt
    requires ValidOp(o, c)
  {
    if o.op == 0 && c.val[o.num] != 0 then Stopped(0, Blocks)
    else if UndoOverflows(c, o) then Stopped(0, OutOfRange)
    else if c.val[o.num] + o.op < 0 then Stopped(0, Blocks)
    else if c.val[o.num] + o.op > SEMVMX then Stopped(0, OutOfRange)
    else Went(Effect(c, o))
  }

  /** The operations one after the other, up to the first that is stopped. */
  function Perform(c: Cells, sops: seq<SemBuf>): Attempt
    requires ValidOps(sops, c)
    decreases |sops|
  {
    if sops == [] then Went(c)
    else
      match OneOp(c, sops[0])
      case Stopped(_, why) => Stopped(0, why)
      case Went(c1) =>
        match Perform(c1, sops[1..])
        case Went(c2) => Went(c2)
        case Stopped(at, why) => Stopped(at + 1, why)
  }

  /** The cells after the operations, all permitted or not. */
  function EffectAll(c: Cells, sops: seq<SemBuf>): (r: Cells)
    requires ValidOps(sops, c)
    ensures |r.val| == |c.val| && |r.adj| == |c.adj|
    decreases |sops|
  {
    if sops == [] then c else EffectAll(Effect(c, sops[0]), sops[1..])
  }

  /** The sum of the operations on semaphore `n`; with `undoOnly`, of those with SEM_UNDO. */
  function Sum(sops: seq<SemBuf>, n: nat, undoOnly: bool): int {
    if sops == [] then 0
    else (if sops[0].num == n && (undoOnly ==> sops[0].undo) then sops[0].op else 0) + Sum(sops[1..], n, undoOnly)
  }

  /** The effect of an array, semaphore by semaphore: repeated semaphore numbers add up. */
  lemma {:induction false} EffectSums(c: Cells, sops: seq<SemBuf>, n: nat)
    requires ValidOps(sops, c)
    ensures n < |c.val| ==> EffectAll(c, sops).val[n] == c.val[n] + Sum(sops, n, false)
    ensures n < |c.adj| ==> EffectAll(c, sops).adj[n] == c.adj[n] - Sum(sops, n, true)
    ensures n >= |c.adj| ==> Sum(sops, n, true) == 0
    decreases |sops|
  {
    if sops != [] {
      EffectSums(Effect(c, sops[0]), sops[1..], n);
    }
  }

  /** Operation `k` is permitted after the operations before it. */
  predicate PermittedAt(c: Cells, sops: seq<SemBuf>, k: nat)
    requires ValidOps(sops, c) && k < |sops|
  {
    OneOp(EffectAll(c, sops[..k]), sops[k]).Went?
  }

  /** The first operation done, the others stand as they do in the rest of the array. */
  lemma PermittedTail(c: Cells, sops: seq<SemBuf>, k: nat)
    requires ValidOps(sops, c) && 0 < k < |sops|
    ensures var c1 := Effect(c, sops[0]);
            && ValidOps(sops[1..], c1)
            && EffectAll(c, sops[..k]) == EffectAll(c1, sops[1..][..k - 1])
            && (PermittedAt(c, sops, k) <==> PermittedAt(c1, sops[1..], k - 1))
  {
    hide OneOp;
    assert sops[..k][1..] == sops[1..][..k - 1];
  }

  /** An array goes through exactly if each operation is permitted after those before it. */
  lemma {:induction false} PerformIff(c: Cells, sops: seq<SemBuf>)
    requires ValidOps(sops, c)
    ensures Perform(c, sops).Went? <==> forall k :: 0 <= k < |sops| ==> PermittedAt(c, sops, k)
    ensures Perform(c, sops).Went? ==> Perform(c, sops).c == EffectAll(c, sops)
    ensures Perform(c, sops).Stopped? ==>
              && Perform(c, sops).at < |sops|
              && OneOp(EffectAll(c, sops[..Perform(c, sops).at]), sops[Perform(c, sops).at]) ==
                 Stopped(0, Perform(c, sops).why)
    decreases |sops|
  {
    if sops != [] {
      assert sops[..0] == [];
      var c1, rest := Effect(c, sops[0]), sops[1..];
      FirstOp(c, sops);
      if OneOp(c, sops[0]).Went? {
        hide OneOp, Effect;
        PerformIff(c1, rest);
        forall k | 0 < k < |sops|
          ensures PermittedAt(c, sops, k) <==> PermittedAt(c1, rest, k - 1)
          ensures EffectAll(c, sops[..k]) == EffectAll(c1, rest[..k - 1])
        {
          PermittedTail(c, sops, k);
        }
        if forall k :: 0 <= k < |sops| ==> PermittedAt(c, sops, k) {
          forall k | 0 <= k < |rest| ensures PermittedAt(c1, rest, k) { assert PermittedAt(c, sops, k + 1); }
        }
      }
    }
  }

  lemma FirstOp(c: Cells, sops: seq<SemBuf>)
    requires ValidOps(sops, c) && sops != []
    ensures PermittedAt(c, sops, 0) <==> OneOp(c, sops[0]).Went?
    ensures OneOp(c, sops[0]).Went? ==> OneOp(c, sops[0]).c == Effect(c, sops[0])
    ensures OneOp(c, sops[0]).Stopped? ==> OneOp(c, sops[0]).at == 0
  {
    assert sops[..0] == [];
  }

  /** The operations before the one that stops an array are permitted. */
  lemma {:induction false} FirstStop(c: Cells, sops: seq<SemBuf>)
    requires ValidOps(sops, c) && Perform(c, sops).Stopped?
    ensures Perform(c, sops).at < |sops| && forall i :: 0 <= i < Perform(c, sops).at ==> PermittedAt(c, sops, i)
    decreases |sops|
  {
    if OneOp(c, sops[0]).Went? {
      var c1 := Effect(c, sops[0]);
      FirstStop(c1, sops[1..]);
      forall i | 0 <= i < Perform(c, sops).at ensures PermittedAt(c, sops, i) {
        if i == 0 { assert sops[..0] == []; } else {
          assert sops[..i][1..] == sops[1..][..i - 1];
          assert PermittedAt(c1, sops[1..], i - 1);
        }
      }
    }
  }

  // ---- the same from the values and the sums alone

  lemma {:induction false} SumSnoc(sops: seq<SemBuf>, o: SemBuf, n: nat, undoOnly: bool)
    ensures Sum(sops + [o], n, undoOnly) ==
            Sum(sops, n, undoOnly) + if o.num == n && (undoOnly ==> o.undo) then o.op else 0
  {
    if sops == [] {
      assert sops + [o] == [o] && [o][1..] == [];
    } else {
      assert (sops + [o])[1..] == sops[1..] + [o];
      SumSnoc(sops[1..], o, n, undoOnly);
    }
  }

  /** The value that operation `k` leaves, if it and those before it take effect. */
  function ValueAt(c: Cells, sops: seq<SemBuf>, k: nat): int
    requires ValidOps(sops, c) && k < |sops|
  {
    c.val[sops[k].num] + Sum(sops[..k + 1], sops[k].num, false)
  }

  /** The adjustment that operation `k` leaves can be stored in a 16-bit integer. */
  predicate UndoFits(c: Cells, sops: seq<SemBuf>, k: nat)
    requires ValidOps(sops, c) && k < |sops|
  {
    sops[k].undo ==> -0x8000 <= c.adj[sops[k].num] - Sum(sops[..k + 1], sops[k].num, true) < 0x8000
  }

  /** A wait for zero needs zero; any other operation a value within bounds. */
  predicate Allowed(c: Cells, sops: seq<SemBuf>, k: nat)
    requires ValidOps(sops, c) && k < |sops|
  {
    && UndoFits(c, sops, k)
    && if sops[k].op == 0 then ValueAt(c, sops, k) == 0 else 0 <= ValueAt(c, sops, k) < 0x8000
  }

  /** Not allowed now, but other processes can change that. */
  predicate MustWait(c: Cells, sops: seq<SemBuf>, k: nat)
    requires ValidOps(sops, c) && k < |sops|
  {
    if sops[k].op == 0 then ValueAt(c, sops, k) != 0 else ValueAt(c, sops, k) < 0 && UndoFits(c, sops, k)
  }

  /** The tests on the changed cells decide just that. */
  lemma AllowedIff(c: Cells, sops: seq<SemBuf>, k: nat)
    requires ValidOps(sops, c) && k < |sops|
    ensures PermittedAt(c, sops, k) <==> Allowed(c, sops, k)
    ensures OneOp(EffectAll(c, sops[..k]), sops[k]) == Stopped(0, Blocks) <==> MustWait(c, sops, k)
    ensures !Allowed(c, sops, k) && !MustWait(c, sops, k) ==>
              OneOp(EffectAll(c, sops[..k]), sops[k]) == Stopped(0, OutOfRange)
  {
    var o := sops[k];
    assert sops[..k + 1] == sops[..k] + [o];
    EffectSums(c, sops[..k], o.num);
    SumSnoc(sops[..k], o, o.num, false);
    SumSnoc(sops[..k], o, o.num, true);
  }

  /** Operation `k` is the first that is not allowed. */
  predicate FirstBad(c: Cells, sops: seq<SemBuf>, k: nat)
    requires ValidOps(sops, c)
  {
    k < |sops| && !Allowed(c, sops, k) && forall i :: 0 <= i < k ==> Allowed(c, sops, i)
  }

  lemma PerformAnswer(c: Cells, sops: seq<SemBuf>)
    requires ValidOps(sops, c)
    ensures Perform(c, sops).Went? <==> forall k :: 0 <= k < |sops| ==> Allowed(c, sops, k)
    ensures forall k: nat :: FirstBad(c, sops, k) ==>
              Perform(c, sops) == Stopped(k, if MustWait(c, sops, k) then Blocks else OutOfRange)
  {
    hide Perform, OneOp, EffectAll, Allowed, MustWait;
    PerformIff(c, sops);
    forall k | 0 <= k < |sops| ensures PermittedAt(c, sops, k) <==> Allowed(c, sops, k) { AllowedIff(c, sops, k); }
    forall k: nat | FirstBad(c, sops, k)
      ensures Perform(c, sops) == Stopped(k, if MustWait(c, sops, k) then Blocks else OutOfRange)
    {
      FirstStop(c, sops);
      var at := Perform(c, sops).at;
      AllowedIff(c, sops, at);
      AllowedIff(c, sops, k);
      assert !PermittedAt(c, sops, at);
    }
  }

  /** If not all operations are allowed, one is the first that is not. */
  lemma SomeBad(c: Cells, sops: seq<SemBuf>)
    requires ValidOps(sops, c)
    ensures (forall k :: 0 <= k < |sops| ==> Allowed(c, sops, k)) || exists k: nat :: FirstBad(c, sops, k)
    ensures forall i: nat, k: nat :: FirstBad(c, sops, i) && FirstBad(c, sops, k) ==> i == k
  {
    hide Allowed;
    if exists k :: 0 <= k < |sops| && !Allowed(c, sops, k) {
      var k: nat := 0;
      while Allowed(c, sops, k)
        invariant k < |sops| && forall i :: 0 <= i < k ==> Allowed(c, sops, i)
        decreases |sops| - k
      {
        if k + 1 == |sops| { assert false; }
        k := k + 1;
      }
      assert FirstBad(c, sops, k);
    }
  }

  // ---- the whole set

  datatype Sems = Sems(val: seq<int>, undo: seq<Undo>)

  function FindUndo(undo: seq<Undo>, pid: nat): (k: nat)
    ensures k <= |undo| && (k < |undo| ==> undo[k].pid == pid)
  {
    if undo == [] || undo[0].pid == pid then 0 else 1 + FindUndo(undo[1..], pid)
  }

  function CellsOf(s: Sems, pid: nat): Cells {
    var k := FindUndo(s.undo, pid);
    Cells(s.val, if k < |s.undo| then s.undo[k].adj else [])
  }

  function WithCells(s: Sems, pid: nat, c: Cells): Sems {
    var k := FindUndo(s.undo, pid);
    Sems(c.val, if k < |s.undo| then s.undo[k := Undo(pid, c.adj)] else s.undo)
  }

  predicate ValidFor(s: Sems, pid: nat, sops: seq<SemBuf>) {
    ValidOps(sops, CellsOf(s, pid))
  }

  /** The return value of `try_atomic_semop`. */
  function Code(a: Attempt, sops: seq<SemBuf>): int {
    match a
    case Went(_) => 0
    case Stopped(at, OutOfRange) => -ERANGE
    case Stopped(at, Blocks) => if at < |sops| && sops[at].nowait then -EAGAIN else 1
  }

  /** The return value and the set afterwards; with `doUndo` the set is put back even on success. */
  function Try(s: Sems, pid: nat, sops: seq<SemBuf>, doUndo: bool): (int, Sems)
    requires ValidFor(s, pid, sops)
  {
    var a := Perform(CellsOf(s, pid), sops);
    (Code(a, sops), if a.Went? && !doUndo then WithCells(s, pid, a.c) else s)
  }

  /** The return value that the operations call for. */
  ghost predicate Answers(c: Cells, sops: seq<SemBuf>, result: int)
    requires ValidOps(sops, c)
  {
    && (result == 0 <==> forall k :: 0 <= k < |sops| ==> Allowed(c, sops, k))
    && forall k: nat :: FirstBad(c, sops, k) ==>
         result == if !MustWait(c, sops, k) then -ERANGE else if sops[k].nowait then -EAGAIN else 1
  }

  /** Nothing changes but what the operations add up to, and that only on success and without `doUndo`. */
  predicate ChangesBy(s: Sems, t: Sems, pid: nat, sops: seq<SemBuf>) {
    && |t.val| == |s.val| && |t.undo| == |s.undo|
    && (forall n :: 0 <= n < |s.val| ==> t.val[n] == s.val[n] + Sum(sops, n, false))
    && forall j, n :: 0 <= j < |s.undo| && 0 <= n < |s.undo[j].adj| ==>
         && |t.undo[j].adj| == |s.undo[j].adj| && t.undo[j].pid == s.undo[j].pid
         && t.undo[j].adj[n] == s.undo[j].adj[n] - if j == FindUndo(s.undo, pid) then Sum(sops, n, true) else 0
  }

  /** What an array of operations does, from the values before, the sums of the operations and their flags. */
  lemma TryMeans(s: Sems, pid: nat, sops: seq<SemBuf>, doUndo: bool)
    requires ValidFor(s, pid, sops)
    ensures var (result, t) := Try(s, pid, sops, doUndo);
            && Answers(CellsOf(s, pid), sops, result)
            && if result == 0 && !doUndo then ChangesBy(s, t, pid, sops) else t == s
  {
    hide Perform, Allowed, MustWait, Sum;
    var c := CellsOf(s, pid);
    PerformAnswer(c, sops);
    PerformIff(c, sops);
    SomeBad(c, sops);
    forall n: nat
      ensures n < |s.val| ==> EffectAll(c, sops).val[n] == s.val[n] + Sum(sops, n, false)
      ensures n < |c.adj| ==> EffectAll(c, sops).adj[n] == c.adj[n] - Sum(sops, n, true)
    {
      EffectSums(c, sops, n);
    }
  }

  // ---- the pending queue

  predicate QueueValid(s: Sems, q: seq<Waiter>) {
    forall i :: 0 <= i < |q| ==> ValidFor(s, q[i].pid, q[i].sops)
  }

  /** The shape of a set does not change: as many semaphores, the same processes with adjustments. */
  predicate SameShape(s: Sems, t: Sems) {
    && |t.val| == |s.val| && |t.undo| == |s.undo|
    && forall k :: 0 <= k < |s.undo| ==> t.undo[k].pid == s.undo[k].pid && |t.undo[k].adj| == |s.undo[k].adj|
  }

  lemma {:induction false} SameFind(u: seq<Undo>, v: seq<Undo>, pid: nat)
    requires |u| == |v| && forall k :: 0 <= k < |u| ==> v[k].pid == u[k].pid
    ensures FindUndo(v, pid) == FindUndo(u, pid)
  {
    if u != [] { SameFind(u[1..], v[1..], pid); }
  }

  lemma ShapeKeepsValid(s: Sems, t: Sems, q: seq<Waiter>)
    requires SameShape(s, t) && QueueValid(s, q)
    ensures QueueValid(t, q)
  {
    forall i | 0 <= i < |q| ensures ValidFor(t, q[i].pid, q[i].sops) {
      SameFind(s.undo, t.undo, q[i].pid);
    }
  }

  lemma TryShape(s: Sems, pid: nat, sops: seq<SemBuf>, doUndo: bool)
    requires ValidFor(s, pid, sops)
    ensures SameShape(s, Try(s, pid, sops, doUndo).1)
    ensures Try(s, pid, sops, doUndo).1 ==
            if Try(s, pid, sops, doUndo).0 == 0 && !doUndo then WithCells(s, pid, EffectAll(CellsOf(s, pid), sops)) else s
  {
    PerformIff(CellsOf(s, pid), sops);
  }

  /** What a pass over the queue leaves: the set, the queue, and the processes done with their status. */
  datatype Pass = Pass(s: Sems, queue: seq<Waiter>, done: seq<Waiter>)

  /** `update_queue`: one pass, ended early by a process that is told to retry by itself. */
  function Update(s: Sems, q: seq<Waiter>): Pass
    requires QueueValid(s, q)
    decreases |q|
  {
    if q == [] then Pass(s, [], [])
    else if q[0].status == 1 then Keep(q[0], Update(s, q[1..]))
    else
      var (error, s1) := Try(s, q[0].pid, q[0].sops, q[0].alter);
      if error > 0 then Keep(q[0], Update(s, q[1..]))
      else if error == 0 && q[0].alter then Pass(s, [q[0].(status := 1)] + q[1..], [])
      else
        TryShape(s, q[0].pid, q[0].sops, q[0].alter);
        ShapeKeepsValid(s, s1, q[1..]);
        Finish(q[0].(status := error), Update(s1, q[1..]))
  }

  function Keep(w: Waiter, p: Pass): Pass { p.(queue := [w] + p.queue) }

  function Finish(w: Waiter, p: Pass): Pass { p.(done := [w] + p.done) }

  /** The effect of the processes among `ws` that have status 0, in order. */
  function Completed(s: Sems, ws: seq<Waiter>): Sems
    decreases |ws|
  {
    if ws == [] then s
    else if ws[0].status == 0 && ValidFor(s, ws[0].pid, ws[0].sops) then
      Completed(WithCells(s, ws[0].pid, EffectAll(CellsOf(s, ws[0].pid), ws[0].sops)), ws[1..])
    else Completed(s, ws[1..])
  }

  /** The status of a process aside. */
  predicate SameTask(a: Waiter, b: Waiter) {
    a.pid == b.pid && a.sops == b.sops && a.alter == b.alter
  }

  /** How many of `ws` are told to retry. */
  function Retries(ws: seq<Waiter>): nat {
    if ws == [] then 0 else (if ws[0].status == 1 then 1 else 0) + Retries(ws[1..])
  }

  /**
   A pass changes the set by exactly the operations of the processes it finishes with status 0, in
   queue order; no process it finishes is one that decreases and goes through; and at most one more
   process is told to retry.
   */
  lemma {:induction false} UpdateIsFold(s: Sems, q: seq<Waiter>)
    requires QueueValid(s, q)
    ensures var p := Update(s, q);
            && p.s == Completed(s, p.done) && SameShape(s, p.s)
            && (forall i :: 0 <= i < |p.done| ==> p.done[i].status <= 0 && (p.done[i].status == 0 ==> !p.done[i].alter))
            && Retries(q) <= Retries(p.queue) <= Retries(q) + 1
            && QueueValid(p.s, p.queue)
    decreases |q|
  {
    hide Perform, EffectAll, CellsOf;
    if q != [] {
      var w := q[0];
      var (error, s1) := Try(s, w.pid, w.sops, w.alter);
      TryShape(s, w.pid, w.sops, w.alter);
      ShapeKeepsValid(s, s1, q[1..]);
      if w.status == 1 || error > 0 {
        UpdateIsFold(s, q[1..]);
        ShapeKeepsValid(s, Update(s, q[1..]).s, [w]);
        var p := Update(s, q);
        assert p.queue[1..] == Update(s, q[1..]).queue;
        forall i | 0 <= i < |p.queue| ensures ValidFor(p.s, p.queue[i].pid, p.queue[i].sops) {
          if i == 0 { assert p.queue[i] == [w][0]; } else { assert p.queue[i] == Update(s, q[1..]).queue[i - 1]; }
        }
      } else if error == 0 && w.alter {
        var p := Update(s, q);
        assert p.queue[1..] == q[1..];
      } else {
        UpdateIsFold(s1, q[1..]);
        var p := Update(s, q);
        assert p.done[1..] == Update(s1, q[1..]).done;
      }
    }
  }

  /** Each of `ws`, tried in order without anybody in between, gets its status. */
  predicate Deserved(s: Sems, ws: seq<Waiter>)
    decreases |ws|
  {
    ws == [] ||
    (&& ValidFor(s, ws[0].pid, ws[0].sops)
     && var (error, s1) := Try(s, ws[0].pid, ws[0].sops, ws[0].alter);
        ws[0].status == error <= 0 && Deserved(s1, ws[1..]))
  }

  /** The processes done get what they would get if those that stay were not in the queue. */
  lemma {:induction false} UpdateDeserved(s: Sems, q: seq<Waiter>)
    requires QueueValid(s, q)
    ensures Deserved(s, Update(s, q).done)
    decreases |q|
  {
    if q != [] {
      var w := q[0];
      var (error, s1) := Try(s, w.pid, w.sops, w.alter);
      TryShape(s, w.pid, w.sops, w.alter);
      ShapeKeepsValid(s, s1, q[1..]);
      if w.status == 1 || error > 0 {
        UpdateDeserved(s, q[1..]);
      } else if !(error == 0 && w.alter) {
        UpdateDeserved(s1, q[1..]);
        assert Update(s, q).done[1..] == Update(s1, q[1..]).done;
      }
    }
  }

  /** The process is still asleep and its operations could be decided now. */
  predicate Ready(s: Sems, w: Waiter)
    requires ValidFor(s, w.pid, w.sops)
  {
    w.status != 1 && Try(s, w.pid, w.sops, w.alter).0 <= 0
  }

  /** A pass does nothing exactly if there is nobody it could help. */
  lemma {:induction false} UpdateIdle(s: Sems, q: seq<Waiter>)
    requires QueueValid(s, q)
    ensures Update(s, q) == Pass(s, q, []) <==> forall i :: 0 <= i < |q| ==> !Ready(s, q[i])
    decreases |q|
  {
    hide Try, ValidFor;
    if q != [] {
      assert ValidFor(s, q[0].pid, q[0].sops);
      var p, p1 := Update(s, q), Update(s, q[1..]);
      if Ready(s, q[0]) {
        assert Try(s, q[0].pid, q[0].sops, q[0].alter).0 == 0 && q[0].alter ==> p.queue[0] != q[0];
      } else {
        UpdateIdle(s, q[1..]);
        assert p.queue == [q[0]] + p1.queue && q == [q[0]] + q[1..];
        assert p.queue[1..] == p1.queue;
        assert forall i :: 0 <= i < |q| ==> i == 0 || q[i] == q[1..][i - 1];
        assert forall i :: 0 <= i < |q[1..]| ==> q[1..][i] == q[i + 1];
      }
    }
  }

  /** The queue is split, in order, into the processes that stay and those that are done. */
  ghost predicate Interleaves(q: seq<Waiter>, a: seq<Waiter>, b: seq<Waiter>)
    decreases |q|
  {
    if q == [] then a == [] && b == []
    else
      || (a != [] && SameTask(q[0], a[0]) && Interleaves(q[1..], a[1..], b))
      || (b != [] && SameTask(q[0], b[0]) && Interleaves(q[1..], a, b[1..]))
  }

  lemma {:induction false} AllStay(q: seq<Waiter>)
    ensures Interleaves(q, q, [])
  {
    if q != [] { AllStay(q[1..]); }
  }

  lemma {:induction false} UpdateSplits(s: Sems, q: seq<Waiter>)
    requires QueueValid(s, q)
    ensures Interleaves(q, Update(s, q).queue, Update(s, q).done)
    decreases |q|
  {
    if q != [] {
      var w := q[0];
      var (error, s1) := Try(s, w.pid, w.sops, w.alter);
      TryShape(s, w.pid, w.sops, w.alter);
      ShapeKeepsValid(s, s1, q[1..]);
      var p := Update(s, q);
      if w.status == 1 || error > 0 {
        UpdateSplits(s, q[1..]);
        assert p.queue[1..] == Update(s, q[1..]).queue;
      } else if error == 0 && w.alter {
        AllStay(q[1..]);
        assert p.queue[1..] == q[1..];
      } else {
        UpdateSplits(s1, q[1..]);
        assert p.done[1..] == Update(s1, q[1..]).done;
      }
    }
  }

  // ---- conservation

  function AdjSum(undo: seq<Undo>, n: nat): int {
    if undo == [] then 0
    else (if n < |undo[0].adj| then undo[0].adj[n] else 0) + AdjSum(undo[1..], n)
  }

  /** The value of a semaphore plus all adjustments that are still to be made to it. */
  function Balance(s: Sems, n: nat): int
    requires n < |s.val|
  {
    s.val[n] + AdjSum(s.undo, n)
  }

  lemma {:induction false} AdjSumUpdate(undo: seq<Undo>, k: nat, u: Undo, n: nat)
    requires k < |undo|
    ensures AdjSum(undo[k := u], n) == AdjSum(undo, n)
              - (if n < |undo[k].adj| then undo[k].adj[n] else 0) + (if n < |u.adj| then u.adj[n] else 0)
  {
    if k == 0 {
      assert undo[k := u][1..] == undo[1..];
    } else {
      assert undo[k := u][1..] == undo[1..][k - 1 := u];
      AdjSumUpdate(undo[1..], k - 1, u, n);
    }
  }

  /** The sum of the operations on `n` without SEM_UNDO. */
  function Plain(sops: seq<SemBuf>, n: nat): int { Sum(sops, n, false) - Sum(sops, n, true) }

  /** A completed array changes the balance only by its operations without SEM_UNDO. */
  lemma CompleteBalance(s: Sems, pid: nat, sops: seq<SemBuf>, n: nat)
    requires ValidFor(s, pid, sops) && n < |s.val|
    ensures Balance(WithCells(s, pid, EffectAll(CellsOf(s, pid), sops)), n) == Balance(s, n) + Plain(sops, n)
  {
    var c, k := CellsOf(s, pid), FindUndo(s.undo, pid);
    EffectSums(c, sops, n);
    if k < |s.undo| { AdjSumUpdate(s.undo, k, Undo(pid, EffectAll(c, sops).adj), n); }
  }

  /** The sum over the processes finished with status 0 of their operations without SEM_UNDO. */
  function PlainOf(ws: seq<Waiter>, n: nat): int {
    if ws == [] then 0 else (if ws[0].status == 0 then Plain(ws[0].sops, n) else 0) + PlainOf(ws[1..], n)
  }

  lemma {:induction false} UpdateBalance(s: Sems, q: seq<Waiter>, n: nat)
    requires QueueValid(s, q) && n < |s.val|
    ensures |Update(s, q).s.val| == |s.val|
    ensures Balance(Update(s, q).s, n) == Balance(s, n) + PlainOf(Update(s, q).done, n)
    decreases |q|
  {
    if q != [] {
      var w := q[0];
      var (error, s1) := Try(s, w.pid, w.sops, w.alter);
      TryShape(s, w.pid, w.sops, w.alter);
      ShapeKeepsValid(s, s1, q[1..]);
      if w.status == 1 || error > 0 {
        UpdateBalance(s, q[1..], n);
      } else if !(error == 0 && w.alter) {
        UpdateBalance(s1, q[1..], n);
        CompleteBalance(s, w.pid, w.sops, n);
        assert Update(s, q).done[1..] == Update(s1, q[1..]).done;
      }
    }
  }
}
