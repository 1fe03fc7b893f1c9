/**
 Whole runs of a semaphore set: calls, retries, interruptions, exits and resets in any order. The
 books balance, and no value ever becomes negative.
 */
module SemRuns {
  import opened Basics
  import opened Semaphores

  datatype State = State(s: Sems, queue: seq<Waiter>)

  datatype Event =
    | Semop(pid: nat, sops: seq<SemBuf>)   // sys_semop, up to its return or its first sleep
    | Retry(k: nat)                        // the sleeper at position k, told to retry, runs again
    | Interrupt(k: nat)                    // the sleeper at position k gives up
    | Exit(pid: nat)                       // sem_exit
    | SetVal(n: nat, x: int)
    | SetAll(vals: seq<int>)

  predicate Alters(sops: seq<SemBuf>) { exists i :: 0 <= i < |sops| && sops[i].op != 0 }

  predicate Decreases(sops: seq<SemBuf>) { exists i :: 0 <= i < |sops| && sops[i].op < 0 }

  predicate UsesUndo(sops: seq<SemBuf>) { exists i :: 0 <= i < |sops| && sops[i].undo }

  /** `alloc_undo`: a process that asks for SEM_UNDO gets a structure of adjustments. */
  function EnsureUndo(s: Sems, pid: nat, sops: seq<SemBuf>): Sems {
    if UsesUndo(sops) && FindUndo(s.undo, pid) == |s.undo| then
      s.(undo := [Undo(pid, Zeros(|s.val|))] + s.undo)
    else s
  }

  // ---- the invariant

  predicate CellsOk(val: seq<int>) { forall n :: 0 <= n < |val| ==> val[n] >= 0 }

  predicate AdjOk(adj: seq<int>, n: nat) {
    |adj| == n && forall i :: 0 <= i < n ==> UndoInRange(adj[i])
  }

  predicate SemsOk(s: Sems) {
    && CellsOk(s.val)
    && forall k :: 0 <= k < |s.undo| ==> AdjOk(s.undo[k].adj, |s.val|)
  }

  predicate StateOk(st: State) {
    SemsOk(st.s) && QueueValid(st.s, st.queue)
  }

  // ---- the events

  /** What follows a change: a pass over the queue. The processes done come after `first`. */
  function Then(s: Sems, q: seq<Waiter>, first: seq<Waiter>): (State, seq<Waiter>)
    requires QueueValid(s, q)
  {
    var p := Update(s, q);
    (State(p.s, p.queue), first + p.done)
  }

  predicate Enabled(st: State, e: Event) {
    match e
    case Semop(pid, sops) => forall i :: 0 <= i < |sops| ==> sops[i].num < |st.s.val|
    case Retry(k) => k < |st.queue| && st.queue[k].status == 1
    case Interrupt(k) => k < |st.queue| && st.queue[k].status != 1
    case Exit(pid) => true
    case SetVal(n, x) => n < |st.s.val| && 0 <= x <= SEMVMX
    case SetAll(vals) => |vals| == |st.s.val| && forall n :: 0 <= n < |vals| ==> 0 <= vals[n] <= SEMVMX
  }

  /** The value of each semaphore after the adjustments of an exiting process; never below zero. */
  function Adjusted(val: seq<int>, adj: seq<int>): (r: seq<int>)
    ensures |r| == |val|
    ensures forall n :: 0 <= n < |val| ==> r[n] == Max0(val[n] + if n < |adj| then adj[n] else 0)
  {
    if val == [] then []
    else Adjusted(val[..|val| - 1], if |adj| < |val| then adj else adj[..|val| - 1])
         + [Max0(val[|val| - 1] + if |val| - 1 < |adj| then adj[|val| - 1] else 0)]
  }

  /** The set after the process whose adjustments stand at `k` has made them. */
  function Settled(s: Sems, k: nat): Sems
    requires k < |s.undo|
  {
    Sems(Adjusted(s.val, s.undo[k].adj), RemoveAt(s.undo, k))
  }

  function Max0(x: int): int { if x < 0 then 0 else x }

  function ClearAdj(undo: seq<Undo>, n: nat): seq<Undo> {
    if undo == [] then []
    else [if n < |undo[0].adj| then undo[0].(adj := undo[0].adj[n := 0]) else undo[0]] + ClearAdj(undo[1..], n)
  }

  function ClearAll(undo: seq<Undo>): seq<Undo> {
    if undo == [] then [] else [undo[0].(adj := Zeros(|undo[0].adj|))] + ClearAll(undo[1..])
  }

  /** The queue without the sleeping process `pid`. */
  function WithoutPid(q: seq<Waiter>, pid: nat): seq<Waiter> {
    if q == [] then [] else (if q[0].pid == pid then [] else [q[0]]) + WithoutPid(q[1..], pid)
  }

  function AfterSemop(st: State, pid: nat, sops: seq<SemBuf>): (State, seq<Waiter>)
    requires StateOk(st) && Enabled(st, Semop(pid, sops))
  {
    var s := EnsureUndo(st.s, pid, sops);
    EnsureValid(st, pid, sops);
    var (error, s1) := Try(s, pid, sops, false);
    var w := Waiter(pid, sops, Decreases(sops), error);
    TryShape(s, pid, sops, false);
    ShapeKeepsValid(s, s1, st.queue);
    if error <= 0 then
      if Alters(sops) then Then(s1, st.queue, [w]) else (State(s1, st.queue), [w])
    else
      var sleeper := w.(status := -EINTR);
      (State(s, if Alters(sops) then st.queue + [sleeper] else [sleeper] + st.queue), [])
  }

  function AfterRetry(st: State, k: nat): (State, seq<Waiter>)
    requires StateOk(st) && Enabled(st, Retry(k))
  {
    var q := st.queue[k];
    var (error, s1) := Try(st.s, q.pid, q.sops, false);
    var rest := RemoveAt(st.queue, k);
    TryShape(st.s, q.pid, q.sops, false);
    assert QueueValid(st.s, rest) by { RemoveValid(st.s, st.queue, k); }
    ShapeKeepsValid(st.s, s1, rest);
    if error <= 0 then
      var w := q.(status := error);
      if Alters(q.sops) then Then(s1, rest, [w]) else (State(s1, rest), [w])
    else (State(st.s, st.queue[k := q.(status := -EINTR)]), [])
  }

  function AfterInterrupt(st: State, k: nat): (State, seq<Waiter>)
    requires StateOk(st) && Enabled(st, Interrupt(k))
  {
    var rest := RemoveAt(st.queue, k);
    assert QueueValid(st.s, rest) by { RemoveValid(st.s, st.queue, k); }
    if Alters(st.queue[k].sops) then Then(st.s, rest, []) else (State(st.s, rest), [])
  }

  function AfterExit(st: State, pid: nat): (State, seq<Waiter>)
    requires StateOk(st)
  {
    var q, k := WithoutPid(st.queue, pid), FindUndo(st.s.undo, pid);
    if k == |st.s.undo| then (State(st.s, q), [])
    else
      ExitValid(st, pid);
      Then(Settled(st.s, k), q, [])
  }

  function Step(st: State, e: Event): (State, seq<Waiter>)
    requires StateOk(st) && Enabled(st, e)
  {
    match e
    case Semop(pid, sops) => AfterSemop(st, pid, sops)
    case Retry(k) => AfterRetry(st, k)
    case Interrupt(k) => AfterInterrupt(st, k)
    case Exit(pid) => AfterExit(st, pid)
    case SetVal(n, x) =>
      var s1 := Sems(st.s.val[n := x], ClearAdj(st.s.undo, n));
      ClearAdjShape(st.s.undo, n);
      ShapeKeepsValid(st.s, s1, st.queue);
      Then(s1, st.queue, [])
    case SetAll(vals) =>
      var s1 := Sems(vals, ClearAll(st.s.undo));
      ClearAllShape(st.s.undo);
      ShapeKeepsValid(st.s, s1, st.queue);
      Then(s1, st.queue, [])
  }

  lemma EnsureValid(st: State, pid: nat, sops: seq<SemBuf>)
    requires StateOk(st) && Enabled(st, Semop(pid, sops))
    ensures var s := EnsureUndo(st.s, pid, sops); ValidFor(s, pid, sops) && QueueValid(s, st.queue) && SemsOk(s)
  {
  }

  lemma RemoveValid(s: Sems, q: seq<Waiter>, k: nat)
    requires QueueValid(s, q) && k < |q|
    ensures QueueValid(s, RemoveAt(q, k))
  {
  }

  lemma {:induction false} WithoutPidFrom(q: seq<Waiter>, pid: nat)
    ensures forall w :: w in WithoutPid(q, pid) <==> w in q && w.pid != pid
  {
    if q != [] { WithoutPidFrom(q[1..], pid); }
  }

  lemma {:induction false} FindConcat(a: seq<Undo>, b: seq<Undo>, pid: nat)
    ensures FindUndo(a + b, pid) == if FindUndo(a, pid) < |a| then FindUndo(a, pid) else |a| + FindUndo(b, pid)
  {
    if a == [] {
      assert a + b == b;
    } else {
      assert (a + b)[1..] == a[1..] + b;
      FindConcat(a[1..], b, pid);
    }
  }

  lemma FindWithout(undo: seq<Undo>, k: nat, pid: nat)
    requires k < |undo| && undo[k].pid != pid
    ensures var less := RemoveAt(undo, k);
            var i, j := FindUndo(undo, pid), FindUndo(less, pid);
            (i == |undo| ==> j == |less|) && (i < |undo| ==> j < |less| && less[j] == undo[i])
  {
    hide FindUndo;
    var a, x, b := undo[..k], undo[k], undo[k + 1..];
    assert undo == a + ([x] + b);
    FindConcat(a, [x] + b, pid);
    FindConcat([x], b, pid);
    FindConcat(a, b, pid);
    FindOther(x, pid);
  }

  lemma FindOther(x: Undo, pid: nat)
    requires x.pid != pid
    ensures FindUndo([x], pid) == 1
  {
    assert [x][1..] == [];
  }

  /** What another process waits for is still within its adjustments and the set. */
  lemma SettledValid(s: Sems, k: nat, pid: nat, sops: seq<SemBuf>)
    requires k < |s.undo| && s.undo[k].pid != pid && ValidFor(s, pid, sops)
    ensures ValidFor(Settled(s, k), pid, sops)
  {
    hide FindUndo, RemoveAt;
    FindWithout(s.undo, k, pid);
  }

  lemma ExitValid(st: State, pid: nat)
    requires StateOk(st) && FindUndo(st.s.undo, pid) < |st.s.undo|
    ensures var k := FindUndo(st.s.undo, pid); QueueValid(Settled(st.s, k), WithoutPid(st.queue, pid))
  {
    hide Settled, ValidFor, FindUndo;
    var k, q := FindUndo(st.s.undo, pid), WithoutPid(st.queue, pid);
    WithoutPidFrom(st.queue, pid);
    forall i | 0 <= i < |q| ensures ValidFor(Settled(st.s, k), q[i].pid, q[i].sops) {
      assert q[i] in st.queue;
      var j :| 0 <= j < |st.queue| && st.queue[j] == q[i];
      SettledValid(st.s, k, q[i].pid, q[i].sops);
    }
  }

  lemma {:induction false} ClearAdjShape(undo: seq<Undo>, n: nat)
    ensures |ClearAdj(undo, n)| == |undo|
    ensures forall k :: 0 <= k < |undo| ==>
              ClearAdj(undo, n)[k] == if n < |undo[k].adj| then undo[k].(adj := undo[k].adj[n := 0]) else undo[k]
  {
    if undo != [] { ClearAdjShape(undo[1..], n); }
  }

  lemma {:induction false} ClearAllShape(undo: seq<Undo>)
    ensures |ClearAll(undo)| == |undo|
    ensures forall k :: 0 <= k < |undo| ==> ClearAll(undo)[k] == undo[k].(adj := Zeros(|undo[k].adj|))
  {
    if undo != [] { ClearAllShape(undo[1..]); }
  }

  // ---- every event keeps the invariant

  predicate AttemptOk(c: Cells) {
    CellsOk(c.val) && (c.adj == [] || AdjOk(c.adj, |c.val|))
  }

  /** Operations that go through leave no negative value and no adjustment out of range. */
  lemma {:induction false} PerformOk(c: Cells, sops: seq<SemBuf>)
    requires ValidOps(sops, c) && AttemptOk(c)
    ensures Perform(c, sops).Went? ==>
              AttemptOk(Perform(c, sops).c) && |Perform(c, sops).c.val| == |c.val| && |Perform(c, sops).c.adj| == |c.adj|
    decreases |sops|
  {
    if sops != [] && OneOp(c, sops[0]).Went? {
      PerformOk(OneOp(c, sops[0]).c, sops[1..]);
    }
  }

  lemma TryOk(s: Sems, pid: nat, sops: seq<SemBuf>, doUndo: bool)
    requires SemsOk(s) && ValidFor(s, pid, sops)
    ensures SemsOk(Try(s, pid, sops, doUndo).1)
  {
    PerformOk(CellsOf(s, pid), sops);
  }

  lemma {:induction false} UpdateOk(s: Sems, q: seq<Waiter>)
    requires SemsOk(s) && QueueValid(s, q)
    ensures SemsOk(Update(s, q).s)
    decreases |q|
  {
    if q != [] {
      var w := q[0];
      TryOk(s, w.pid, w.sops, w.alter);
      TryShape(s, w.pid, w.sops, w.alter);
      ShapeKeepsValid(s, Try(s, w.pid, w.sops, w.alter).1, q[1..]);
      UpdateOk(s, q[1..]);
      UpdateOk(Try(s, w.pid, w.sops, w.alter).1, q[1..]);
    }
  }

  lemma ThenOk(s: Sems, q: seq<Waiter>, first: seq<Waiter>)
    requires SemsOk(s) && QueueValid(s, q)
    ensures StateOk(Then(s, q, first).0) && SameShape(s, Then(s, q, first).0.s)
  {
    UpdateOk(s, q);
    UpdateIsFold(s, q);
  }

  lemma SemopOk(st: State, pid: nat, sops: seq<SemBuf>)
    requires StateOk(st) && Enabled(st, Semop(pid, sops))
    ensures StateOk(AfterSemop(st, pid, sops).0) && |AfterSemop(st, pid, sops).0.s.val| == |st.s.val|
  {
    hide Try, Update, ValidFor, FindUndo, SemsOk;
    var s := EnsureUndo(st.s, pid, sops);
    EnsureValid(st, pid, sops);
    TryOk(s, pid, sops, false);
    TryShape(s, pid, sops, false);
    var s1 := Try(s, pid, sops, false).1;
    ShapeKeepsValid(s, s1, st.queue);
    ThenOk(s1, st.queue, [Waiter(pid, sops, Decreases(sops), Try(s, pid, sops, false).0)]);
  }

  lemma RetryOk(st: State, k: nat)
    requires StateOk(st) && Enabled(st, Retry(k))
    ensures StateOk(AfterRetry(st, k).0) && |AfterRetry(st, k).0.s.val| == |st.s.val|
  {
    var q, rest := st.queue[k], RemoveAt(st.queue, k);
    var (error, s1) := Try(st.s, q.pid, q.sops, false);
    TryOk(st.s, q.pid, q.sops, false);
    TryShape(st.s, q.pid, q.sops, false);
    RemoveValid(st.s, st.queue, k);
    ShapeKeepsValid(st.s, s1, rest);
    ThenOk(s1, rest, [q.(status := error)]);
  }

  lemma ExitOk(st: State, pid: nat)
    requires StateOk(st)
    ensures StateOk(AfterExit(st, pid).0) && |AfterExit(st, pid).0.s.val| == |st.s.val|
  {
    hide Update, ValidFor, FindUndo;
    var q, k := WithoutPid(st.queue, pid), FindUndo(st.s.undo, pid);
    if k == |st.s.undo| {
      WithoutPidFrom(st.queue, pid);
      forall i | 0 <= i < |q| ensures ValidFor(st.s, q[i].pid, q[i].sops) {
        assert q[i] in st.queue;
        var j :| 0 <= j < |st.queue| && st.queue[j] == q[i];
      }
    } else {
      ExitValid(st, pid);
      ThenOk(Settled(st.s, k), q, []);
    }
  }

  lemma StepOk(st: State, e: Event)
    requires StateOk(st) && Enabled(st, e)
    ensures StateOk(Step(st, e).0) && |Step(st, e).0.s.val| == |st.s.val|
  {
    match e
    case Semop(pid, sops) => SemopOk(st, pid, sops);
    case Retry(k) => RetryOk(st, k);
    case Interrupt(k) =>
      RemoveValid(st.s, st.queue, k);
      ThenOk(st.s, RemoveAt(st.queue, k), []);
    case Exit(pid) => ExitOk(st, pid);
    case SetVal(n, x) =>
      var s1 := Sems(st.s.val[n := x], ClearAdj(st.s.undo, n));
      ClearAdjShape(st.s.undo, n);
      ShapeKeepsValid(st.s, s1, st.queue);
      ThenOk(s1, st.queue, []);
    case SetAll(vals) =>
      var s1 := Sems(vals, ClearAll(st.s.undo));
      ClearAllShape(st.s.undo);
      ShapeKeepsValid(st.s, s1, st.queue);
      ThenOk(s1, st.queue, []);
  }

  // ---- who sleeps, and where in the queue

  /**
   A call returns 0 exactly if each of its operations is allowed by the values and the sums of the operations up to it.
   The first that is not decides: if it must wait, the call sleeps or returns -EAGAIN as its flag says, else it returns
   -ERANGE. Only a call that sleeps joins the queue.
   */
  lemma SemopAnswer(st: State, pid: nat, sops: seq<SemBuf>)
    requires StateOk(st) && Enabled(st, Semop(pid, sops))
    ensures var r, c := AfterSemop(st, pid, sops), CellsOf(EnsureUndo(st.s, pid, sops), pid);
            && ValidOps(sops, c)
            && (r.1 != [] ==> r.1[0].pid == pid && r.1[0].sops == sops && Answers(c, sops, r.1[0].status))
            && (r.1 == [] <==> exists k: nat :: FirstBad(c, sops, k) && MustWait(c, sops, k) && !sops[k].nowait)
            && (r.1 == [] ==> r.0.s.val == st.s.val && |r.0.queue| == |st.queue| + 1)
  {
    hide Update, Perform, Allowed, MustWait, Sum;
    var s := EnsureUndo(st.s, pid, sops);
    EnsureValid(st, pid, sops);
    TryMeans(s, pid, sops, false);
    SomeBad(CellsOf(s, pid), sops);
  }

  /**
   The same for a sleeper that tries again. If it has to wait, it keeps its place, and can be woken again: nothing else
   changes.
   */
  lemma RetryAnswer(st: State, k: nat)
    requires StateOk(st) && Enabled(st, Retry(k))
    ensures var r, q, c := AfterRetry(st, k), st.queue[k], CellsOf(st.s, st.queue[k].pid);
            && ValidOps(q.sops, c)
            && (r.1 != [] ==> r.1[0].pid == q.pid && r.1[0].sops == q.sops && Answers(c, q.sops, r.1[0].status))
            && (r.1 == [] <==> exists i: nat :: FirstBad(c, q.sops, i) && MustWait(c, q.sops, i) && !q.sops[i].nowait)
            && (r.1 == [] ==> r.0 == State(st.s, st.queue[k := q.(status := -EINTR)]))
  {
    hide Update, Perform, Allowed, MustWait, Sum;
    var q := st.queue[k];
    assert ValidFor(st.s, q.pid, q.sops);
    TryMeans(st.s, q.pid, q.sops, false);
    SomeBad(CellsOf(st.s, q.pid), q.sops);
  }

  /** Those that only wait for zero stand before all others. */
  predicate ZeroFirst(q: seq<Waiter>) {
    forall i, j :: 0 <= i < j < |q| && Alters(q[i].sops) ==> Alters(q[j].sops)
  }

  lemma {:induction false} SubqueueZeroFirst(q: seq<Waiter>, a: seq<Waiter>, b: seq<Waiter>)
    requires Interleaves(q, a, b) && ZeroFirst(q)
    ensures ZeroFirst(a) && forall w :: w in a ==> exists v :: v in q && SameTask(v, w)
    decreases |q|
  {
    if q != [] {
      var q1 := q[1..];
      assert forall v :: v in q1 ==> v in q;
      assert ZeroFirst(q1);
      if a != [] && SameTask(q[0], a[0]) && Interleaves(q1, a[1..], b) {
        SubqueueZeroFirst(q1, a[1..], b);
        forall w | w in a ensures exists v :: v in q && SameTask(v, w) {
          if w in a[1..] { var v :| v in q1 && SameTask(v, w); } else { assert SameTask(q[0], w); }
        }
        forall i, j | 0 <= i < j < |a| && Alters(a[i].sops) ensures Alters(a[j].sops) {
          assert a[j] == a[1..][j - 1] && a[j] in a[1..];
          if i == 0 {
            var v :| v in q1 && SameTask(v, a[j]);
          } else {
            assert a[i] == a[1..][i - 1];
          }
        }
      } else {
        SubqueueZeroFirst(q1, a, b[1..]);
      }
    }
  }

  lemma ThenZeroFirst(s: Sems, q: seq<Waiter>, first: seq<Waiter>)
    requires QueueValid(s, q) && ZeroFirst(q)
    ensures ZeroFirst(Then(s, q, first).0.queue)
  {
    UpdateSplits(s, q);
    SubqueueZeroFirst(q, Update(s, q).queue, Update(s, q).done);
  }

  lemma {:induction false} WithoutPidZeroFirst(q: seq<Waiter>, pid: nat)
    requires ZeroFirst(q)
    ensures ZeroFirst(WithoutPid(q, pid))
  {
    if q != [] {
      assert ZeroFirst(q[1..]);
      WithoutPidZeroFirst(q[1..], pid);
      WithoutPidFrom(q[1..], pid);
      var r, r1 := WithoutPid(q, pid), WithoutPid(q[1..], pid);
      forall i, j | 0 <= i < j < |r| && Alters(r[i].sops) ensures Alters(r[j].sops) {
        if q[0].pid != pid {
          assert r[j] == r1[j - 1] && r[j] in r1;
          assert i > 0 ==> r[i] == r1[i - 1];
        }
      }
    }
  }

  /** Every event keeps the order of the queue, with a pass of any outcome in between. */
  lemma StepZeroFirst(st: State, e: Event)
    requires StateOk(st) && Enabled(st, e) && ZeroFirst(st.queue)
    ensures ZeroFirst(Step(st, e).0.queue)
  {
    hide Update, Try, ZeroFirst, SemsOk;
    match e {
      case Semop(pid, sops) => SemopZeroFirst(st, pid, sops);
      case Retry(k) => RetryZeroFirst(st, k);
      case Interrupt(k) =>
        RemoveValid(st.s, st.queue, k);
        RemoveZeroFirst(st.queue, k);
        if Alters(st.queue[k].sops) { ThenZeroFirst(st.s, RemoveAt(st.queue, k), []); }
      case Exit(pid) => ExitZeroFirst(st, pid);
      case SetVal(n, x) =>
        ClearAdjShape(st.s.undo, n);
        var s1 := Sems(st.s.val[n := x], ClearAdj(st.s.undo, n));
        ShapeKeepsValid(st.s, s1, st.queue);
        ThenZeroFirst(s1, st.queue, []);
      case SetAll(vals) =>
        ClearAllShape(st.s.undo);
        var s1 := Sems(vals, ClearAll(st.s.undo));
        ShapeKeepsValid(st.s, s1, st.queue);
        ThenZeroFirst(s1, st.queue, []);
    }
  }

  lemma SemopZeroFirst(st: State, pid: nat, sops: seq<SemBuf>)
    requires StateOk(st) && Enabled(st, Semop(pid, sops)) && ZeroFirst(st.queue)
    ensures ZeroFirst(AfterSemop(st, pid, sops).0.queue)
  {
    hide Update;
    var s := EnsureUndo(st.s, pid, sops);
    EnsureValid(st, pid, sops);
    var (error, s1) := Try(s, pid, sops, false);
    TryShape(s, pid, sops, false);
    ShapeKeepsValid(s, s1, st.queue);
    if error <= 0 && Alters(sops) {
      ThenZeroFirst(s1, st.queue, [Waiter(pid, sops, Decreases(sops), error)]);
    }
  }

  lemma RemoveZeroFirst(q: seq<Waiter>, k: nat)
    requires k < |q| && ZeroFirst(q)
    ensures ZeroFirst(RemoveAt(q, k)) && forall status :: ZeroFirst(q[k := q[k].(status := status)])
  {
    hide Alters;
  }

  lemma RetryZeroFirst(st: State, k: nat)
    requires StateOk(st) && Enabled(st, Retry(k)) && ZeroFirst(st.queue)
    ensures ZeroFirst(AfterRetry(st, k).0.queue)
  {
    hide Update, Try, ZeroFirst, Alters, RemoveAt, SemsOk;
    var q := st.queue[k];
    assert ValidFor(st.s, q.pid, q.sops);
    var (error, s1) := Try(st.s, q.pid, q.sops, false);
    TryShape(st.s, q.pid, q.sops, false);
    RemoveZeroFirst(st.queue, k);
    RemoveValid(st.s, st.queue, k);
    ShapeKeepsValid(st.s, s1, RemoveAt(st.queue, k));
    if error <= 0 && Alters(q.sops) {
      ThenZeroFirst(s1, RemoveAt(st.queue, k), [q.(status := error)]);
    }
  }

  lemma ExitZeroFirst(st: State, pid: nat)
    requires StateOk(st) && ZeroFirst(st.queue)
    ensures ZeroFirst(AfterExit(st, pid).0.queue)
  {
    hide Update, ZeroFirst, FindUndo, QueueValid, SemsOk;
    var q, k := WithoutPid(st.queue, pid), FindUndo(st.s.undo, pid);
    WithoutPidZeroFirst(st.queue, pid);
    if k < |st.s.undo| {
      ExitValid(st, pid);
      ThenZeroFirst(Settled(st.s, k), q, []);
    }
  }

  // ---- the balance over an event

  predicate Resets(e: Event) { e.SetVal? || e.SetAll? }

  /** By how much the value of `n` is raised when the adjustment of an exiting process would take it below zero. */
  function Clamp(st: State, e: Event, n: nat): nat {
    if e.Exit? && n < |st.s.val| then
      var k := FindUndo(st.s.undo, e.pid);
      if k < |st.s.undo| && n < |st.s.undo[k].adj| then Max0(-(st.s.val[n] + st.s.undo[k].adj[n])) else 0
    else 0
  }

  lemma {:induction false} PlainOfConcat(a: seq<Waiter>, b: seq<Waiter>, n: nat)
    ensures PlainOf(a + b, n) == PlainOf(a, n) + PlainOf(b, n)
  {
    if a == [] {
      assert a + b == b;
    } else {
      assert (a + b)[1..] == a[1..] + b;
      PlainOfConcat(a[1..], b, n);
    }
  }

  lemma ThenBalance(s: Sems, q: seq<Waiter>, first: seq<Waiter>, n: nat)
    requires QueueValid(s, q) && n < |s.val|
    ensures var r := Then(s, q, first);
            |r.0.s.val| == |s.val| && Balance(r.0.s, n) + PlainOf(first, n) == Balance(s, n) + PlainOf(r.1, n)
  {
    UpdateBalance(s, q, n);
    PlainOfConcat(first, Update(s, q).done, n);
  }

  lemma TryBalance(s: Sems, pid: nat, sops: seq<SemBuf>, w: Waiter, n: nat)
    requires ValidFor(s, pid, sops) && n < |s.val| && w.sops == sops && w.status == Try(s, pid, sops, false).0 <= 0
    ensures |Try(s, pid, sops, false).1.val| == |s.val|
    ensures Balance(Try(s, pid, sops, false).1, n) == Balance(s, n) + PlainOf([w], n)
  {
    TryShape(s, pid, sops, false);
    CompleteBalance(s, pid, sops, n);
    assert PlainOf([w], n) == if w.status == 0 then Plain(sops, n) else 0;
  }

  lemma EnsureBalance(s: Sems, pid: nat, sops: seq<SemBuf>, n: nat)
    requires n < |s.val|
    ensures |EnsureUndo(s, pid, sops).val| == |s.val| && Balance(EnsureUndo(s, pid, sops), n) == Balance(s, n)
  {
  }

  lemma {:induction false} AdjSumRemove(undo: seq<Undo>, k: nat, n: nat)
    requires k < |undo|
    ensures AdjSum(undo[..k] + undo[k + 1..], n) == AdjSum(undo, n) - if n < |undo[k].adj| then undo[k].adj[n] else 0
  {
    var less := undo[..k] + undo[k + 1..];
    if k == 0 {
      assert less == undo[1..];
    } else {
      assert less[1..] == undo[1..][..k - 1] + undo[1..][k..];
      AdjSumRemove(undo[1..], k - 1, n);
    }
  }

  lemma SemopBalance(st: State, pid: nat, sops: seq<SemBuf>, n: nat)
    requires StateOk(st) && Enabled(st, Semop(pid, sops)) && n < |st.s.val|
    ensures var r := AfterSemop(st, pid, sops);
            |r.0.s.val| == |st.s.val| && Balance(r.0.s, n) == Balance(st.s, n) + PlainOf(r.1, n)
  {
    var s := EnsureUndo(st.s, pid, sops);
    EnsureValid(st, pid, sops);
    EnsureBalance(st.s, pid, sops, n);
    var (error, s1) := Try(s, pid, sops, false);
    var w := Waiter(pid, sops, Decreases(sops), error);
    TryShape(s, pid, sops, false);
    ShapeKeepsValid(s, s1, st.queue);
    if error <= 0 {
      TryBalance(s, pid, sops, w, n);
      ThenBalance(s1, st.queue, [w], n);
    }
  }

  lemma RetryBalance(st: State, k: nat, n: nat)
    requires StateOk(st) && Enabled(st, Retry(k)) && n < |st.s.val|
    ensures var r := AfterRetry(st, k);
            |r.0.s.val| == |st.s.val| && Balance(r.0.s, n) == Balance(st.s, n) + PlainOf(r.1, n)
  {
    var q, rest := st.queue[k], RemoveAt(st.queue, k);
    var (error, s1) := Try(st.s, q.pid, q.sops, false);
    TryShape(st.s, q.pid, q.sops, false);
    RemoveValid(st.s, st.queue, k);
    ShapeKeepsValid(st.s, s1, rest);
    if error <= 0 {
      TryBalance(st.s, q.pid, q.sops, q.(status := error), n);
      ThenBalance(s1, rest, [q.(status := error)], n);
    }
  }

  lemma ExitBalance(st: State, pid: nat, n: nat)
    requires StateOk(st) && n < |st.s.val|
    ensures var r := AfterExit(st, pid);
            && |r.0.s.val| == |st.s.val|
            && Balance(r.0.s, n) == Balance(st.s, n) + PlainOf(r.1, n) + Clamp(st, Exit(pid), n)
  {
    hide Update, ValidFor, FindUndo;
    var q, k := WithoutPid(st.queue, pid), FindUndo(st.s.undo, pid);
    if k < |st.s.undo| {
      var s1 := Settled(st.s, k);
      ExitValid(st, pid);
      AdjSumRemove(st.s.undo, k, n);
      ThenBalance(s1, q, [], n);
    }
  }

  /**
   Over an event other than a reset, the value of a semaphore plus its pending adjustments changes by
   the operations without SEM_UNDO that have been completed, and by what the clamp at zero adds.
   */
  lemma StepBalance(st: State, e: Event, n: nat)
    requires StateOk(st) && Enabled(st, e) && !Resets(e) && n < |st.s.val|
    ensures var r := Step(st, e);
            && |r.0.s.val| == |st.s.val|
            && Balance(r.0.s, n) == Balance(st.s, n) + PlainOf(r.1, n) + Clamp(st, e, n)
  {
    match e
    case Semop(pid, sops) => SemopBalance(st, pid, sops, n);
    case Retry(k) => RetryBalance(st, k, n);
    case Interrupt(k) =>
      RemoveValid(st.s, st.queue, k);
      ThenBalance(st.s, RemoveAt(st.queue, k), [], n);
    case Exit(pid) => ExitBalance(st, pid, n);
  }

  // ---- runs

  predicate Possible(st: State, run: seq<Event>)
    requires StateOk(st)
    decreases |run|
  {
    run == [] ||
    (Enabled(st, run[0]) && (StepOk(st, run[0]); Possible(Step(st, run[0]).0, run[1..])))
  }

  function Final(st: State, run: seq<Event>): State
    requires StateOk(st) && Possible(st, run)
    decreases |run|
  {
    if run == [] then st else StepOk(st, run[0]); Final(Step(st, run[0]).0, run[1..])
  }

  /** What the run adds to the balance of `n`: completed operations without SEM_UNDO, and clamps. */
  function Ledger(st: State, run: seq<Event>, n: nat): int
    requires StateOk(st) && Possible(st, run)
    decreases |run|
  {
    if run == [] then 0
    else
      StepOk(st, run[0]);
      PlainOf(Step(st, run[0]).1, n) + Clamp(st, run[0], n) + Ledger(Step(st, run[0]).0, run[1..], n)
  }

  predicate NoReset(run: seq<Event>) { forall i :: 0 <= i < |run| ==> !Resets(run[i]) }

  lemma {:induction false} RunOk(st: State, run: seq<Event>)
    requires StateOk(st) && Possible(st, run)
    ensures StateOk(Final(st, run)) && |Final(st, run).s.val| == |st.s.val|
    decreases |run|
  {
    if run != [] {
      StepOk(st, run[0]);
      RunOk(Step(st, run[0]).0, run[1..]);
    }
  }

  /** In every run that starts with an empty queue, those that only wait for zero stand before all others. */
  lemma {:induction false} RunZeroFirst(st: State, run: seq<Event>)
    requires StateOk(st) && Possible(st, run) && ZeroFirst(st.queue)
    ensures ZeroFirst(Final(st, run).queue)
    decreases |run|
  {
    if run != [] {
      StepOk(st, run[0]);
      StepZeroFirst(st, run[0]);
      RunZeroFirst(Step(st, run[0]).0, run[1..]);
    }
  }

  lemma {:induction false} RunBalance(st: State, run: seq<Event>, n: nat)
    requires StateOk(st) && Possible(st, run) && NoReset(run) && n < |st.s.val|
    ensures |Final(st, run).s.val| == |st.s.val|
    ensures Balance(Final(st, run).s, n) == Balance(st.s, n) + Ledger(st, run, n)
    decreases |run|
  {
    if run != [] {
      StepOk(st, run[0]);
      StepBalance(st, run[0], n);
      RunBalance(Step(st, run[0]).0, run[1..], n);
    }
  }

  /** The operations of `sops` on `n` that change its value carry SEM_UNDO. */
  predicate Undoable(sops: seq<SemBuf>, n: nat) {
    forall i :: 0 <= i < |sops| && sops[i].num == n && sops[i].op != 0 ==> sops[i].undo
  }

  /** In the run, all completed operations on `n` carry SEM_UNDO and no adjustment of it is clamped. */
  predicate UndoneRun(st: State, run: seq<Event>, n: nat)
    requires StateOk(st) && Possible(st, run)
    decreases |run|
  {
    run == [] ||
    (StepOk(st, run[0]);
     var (st1, done) := Step(st, run[0]);
     && (forall i :: 0 <= i < |done| && done[i].status == 0 ==> Undoable(done[i].sops, n))
     && Clamp(st, run[0], n) == 0
     && UndoneRun(st1, run[1..], n))
  }

  lemma {:induction false} UndoablePlain(sops: seq<SemBuf>, n: nat)
    requires Undoable(sops, n)
    ensures Plain(sops, n) == 0
  {
    if sops != [] { UndoablePlain(sops[1..], n); }
  }

  lemma {:induction false} UndoablePlainOf(ws: seq<Waiter>, n: nat)
    requires forall i :: 0 <= i < |ws| && ws[i].status == 0 ==> Undoable(ws[i].sops, n)
    ensures PlainOf(ws, n) == 0
  {
    if ws != [] {
      UndoablePlainOf(ws[1..], n);
      if ws[0].status == 0 { UndoablePlain(ws[0].sops, n); }
    }
  }

  lemma {:induction false} UndoneLedger(st: State, run: seq<Event>, n: nat)
    requires StateOk(st) && Possible(st, run) && UndoneRun(st, run, n)
    ensures Ledger(st, run, n) == 0
    decreases |run|
  {
    hide Step, Clamp, StateOk, Undoable;
    if run != [] {
      StepOk(st, run[0]);
      UndoablePlainOf(Step(st, run[0]).1, n);
      UndoneLedger(Step(st, run[0]).0, run[1..], n);
    }
  }

  /**
   If all completed operations on `n` carry SEM_UNDO and no clamp fires, and no adjustment of `n` is pending before
   and after the run, then `n` has its old value.
   */
  lemma UndoRestores(st: State, run: seq<Event>, n: nat)
    requires StateOk(st) && Possible(st, run) && NoReset(run) && n < |st.s.val| && UndoneRun(st, run, n)
    requires AdjSum(st.s.undo, n) == 0 == AdjSum(Final(st, run).s.undo, n)
    ensures |Final(st, run).s.val| == |st.s.val| && Final(st, run).s.val[n] == st.s.val[n]
  {
    UndoneLedger(st, run, n);
    RunBalance(st, run, n);
  }
}
