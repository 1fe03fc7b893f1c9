/**
 Whether a process may sleep on although its operations could go through. It may: a pass over the queue does not look
 again at the processes before one that it lets raise a semaphore. The arrays of operations with which that happens are
 told from those with which it does not.
 */
module SemWakeups {
  import opened Basics
  import opened Semaphores
  import opened SemRuns

  /** The operations of a sleeper could be decided now. */
  predicate Decidable(s: Sems, w: Waiter)
    requires ValidFor(s, w.pid, w.sops)
  {
    Try(s, w.pid, w.sops, w.alter).0 <= 0
  }

  /** Somebody has been told to retry and will not have to sleep again. */
  predicate SomeoneGoes(s: Sems, q: seq<Waiter>)
    requires QueueValid(s, q)
  {
    exists k :: 0 <= k < |q| && q[k].status == 1 && Decidable(s, q[k])
  }

  predicate NobodyReady(s: Sems, q: seq<Waiter>)
    requires QueueValid(s, q)
  {
    forall k :: 0 <= k < |q| ==> !Ready(s, q[k])
  }

  /** An array that raises and does not lower. */
  predicate Raises(sops: seq<SemBuf>) { Alters(sops) && !Decreases(sops) }

  /** It goes through when all semaphores are zero: no semaphore is to be zero after it has been raised. */
  predicate GoesFromZero(sops: seq<SemBuf>) {
    forall k :: 0 <= k < |sops| ==>
      var v := Sum(sops[..k + 1], sops[k].num, false); if sops[k].op == 0 then v == 0 else 0 <= v < 0x8000
  }

  /** The first wait for zero on a semaphore. */
  predicate FirstZeroOp(sops: seq<SemBuf>, i: nat)
    requires i < |sops|
  {
    sops[i].op == 0 && forall j :: 0 <= j < i && sops[j].num == sops[i].num ==> sops[j].op != 0
  }

  /** There is a semaphore whose value may put it to sleep. */
  predicate CanBlock(sops: seq<SemBuf>) {
    exists i :: 0 <= i < |sops| && FirstZeroOp(sops, i) && !sops[i].nowait
  }

  /** The arrays that may cost others their wake-up: they sleep, go through in the end, and only raise. */
  predicate Risky(sops: seq<SemBuf>) { Raises(sops) && GoesFromZero(sops) && CanBlock(sops) }

  /** Those told to retry have asked to lower a semaphore; none is asleep that will only raise one. */
  predicate Sleeper(w: Waiter) {
    w.alter == Decreases(w.sops) && (w.status == 1 ==> w.alter) && !(Raises(w.sops) && GoesFromZero(w.sops))
  }

  predicate Sleepers(q: seq<Waiter>) { forall k :: 0 <= k < |q| ==> Sleeper(q[k]) }

  /** No wake-up is lost: as long as a sleeper could be decided, someone who goes through will look at the queue. */
  ghost predicate Watched(st: State) {
    && QueueValid(st.s, st.queue) && Sleepers(st.queue)
    && (SomeoneGoes(st.s, st.queue) || NobodyReady(st.s, st.queue))
  }

  // ---- the pass over the queue

  lemma {:induction false} ZeroEffect(c: Cells, sops: seq<SemBuf>)
    requires ValidOps(sops, c) && !Alters(sops)
    ensures EffectAll(c, sops) == c
    decreases |sops|
  {
    if sops != [] {
      assert sops[0].op == 0 && c.val[sops[0].num := c.val[sops[0].num]] == c.val;
      assert sops[0].undo ==> c.adj[sops[0].num := c.adj[sops[0].num]] == c.adj;
      assert Effect(c, sops[0]) == c;
      ZeroEffect(c, sops[1..]);
    }
  }

  /** Operations that only wait for zero change nothing. */
  lemma ZeroKeeps(s: Sems, pid: nat, sops: seq<SemBuf>, doUndo: bool)
    requires ValidFor(s, pid, sops) && !Alters(sops)
    ensures Try(s, pid, sops, doUndo).1 == s
  {
    hide Perform, Alters;
    TryShape(s, pid, sops, doUndo);
    ZeroEffect(CellsOf(s, pid), sops);
    var k := FindUndo(s.undo, pid);
    if k < |s.undo| { assert s.undo[k := s.undo[k]] == s.undo; }
  }

  lemma {:induction false} SumNonNegative(sops: seq<SemBuf>, n: nat)
    requires !Decreases(sops)
    ensures 0 <= Sum(sops, n, true) <= Sum(sops, n, false)
  {
    if sops != [] {
      assert sops[0].op >= 0;
      NoDecreaseIn(sops, 1, |sops|);
      assert sops[1..|sops|] == sops[1..];
      SumNonNegative(sops[1..], n);
    }
  }

  lemma NoDecreaseIn(sops: seq<SemBuf>, a: nat, b: nat)
    requires !Decreases(sops) && a <= b <= |sops|
    ensures !Decreases(sops[a..b])
  {
    var t := sops[a..b];
    forall i | 0 <= i < |t| ensures t[i].op >= 0 { assert t[i] == sops[a + i]; }
  }

  lemma PrefixSum(sops: seq<SemBuf>, k: nat, n: nat)
    requires !Decreases(sops) && k <= |sops|
    ensures 0 <= Sum(sops[..k], n, true) <= Sum(sops[..k], n, false)
  {
    NoDecreaseIn(sops, 0, k);
    assert sops[0..k] == sops[..k];
    SumNonNegative(sops[..k], n);
  }

  /** An array that only raises and goes through would also have gone through from zero. */
  lemma RaiserGoes(s: Sems, pid: nat, sops: seq<SemBuf>, doUndo: bool)
    requires ValidFor(s, pid, sops) && CellsOk(s.val) && Raises(sops) && Try(s, pid, sops, doUndo).0 == 0
    ensures GoesFromZero(sops)
  {
    hide Try, Alters, Decreases, Sum;
    TryMeans(s, pid, sops, doUndo);
    forall k | 0 <= k < |sops|
      ensures var v := Sum(sops[..k + 1], sops[k].num, false); if sops[k].op == 0 then v == 0 else 0 <= v < 0x8000
    {
      assert Allowed(CellsOf(s, pid), sops, k);
      PrefixSum(sops, k + 1, sops[k].num);
    }
  }

  /** An array that only raises, goes through from zero and does not block never sleeps. */
  lemma RaiserReturns(s: Sems, pid: nat, sops: seq<SemBuf>)
    requires ValidFor(s, pid, sops) && CellsOk(s.val) && Raises(sops) && GoesFromZero(sops) && !CanBlock(sops)
    ensures Try(s, pid, sops, false).0 <= 0
  {
    hide Try, Alters, Decreases, Sum;
    var c := CellsOf(s, pid);
    TryMeans(s, pid, sops, false);
    SomeBad(c, sops);
    if k: nat :| FirstBad(c, sops, k) && MustWait(c, sops, k) && !sops[k].nowait {
      PrefixSum(sops, k + 1, sops[k].num);
      PositiveOp(sops, k);
      forall j | 0 <= j < k && sops[j].num == sops[k].num ensures sops[j].op != 0 {
        assert Allowed(c, sops, j);
        PrefixSum(sops, j + 1, sops[j].num);
      }
    }
  }

  lemma PositiveOp(sops: seq<SemBuf>, k: nat)
    requires !Decreases(sops) && k < |sops|
    ensures sops[k].op >= 0
  {
  }

  lemma ConsWatch(s: Sems, w: Waiter, q: seq<Waiter>)
    requires ValidFor(s, w.pid, w.sops) && QueueValid(s, q) && Sleeper(w) && Sleepers(q)
    ensures QueueValid(s, [w] + q) && Sleepers([w] + q)
    ensures SomeoneGoes(s, q) || (w.status == 1 && Decidable(s, w)) ==> SomeoneGoes(s, [w] + q)
    ensures NobodyReady(s, q) && !Ready(s, w) ==> NobodyReady(s, [w] + q)
  {
    hide Try, ValidFor, Sleeper;
    var t := [w] + q;
    assert t[0] == w && forall k :: 0 < k < |t| ==> t[k] == q[k - 1];
    if k :| 0 <= k < |q| && q[k].status == 1 && Decidable(s, q[k]) { assert t[k + 1] == q[k]; }
  }

  /** After a pass nobody is overlooked, whatever was before. */
  lemma {:induction false} PassWatched(s: Sems, q: seq<Waiter>)
    requires CellsOk(s.val) && QueueValid(s, q) && Sleepers(q)
    ensures Update(s, q).s == s && Watched(State(s, Update(s, q).queue))
    decreases |q|
  {
    hide Try, ValidFor, Alters, Decreases, SomeoneGoes, NobodyReady, GoesFromZero, CellsOk;
    if q == [] {
      NobodyThere(s);
    } else {
      var w, rest := q[0], q[1..];
      assert Sleeper(w) && ValidFor(s, w.pid, w.sops);
      var error := Try(s, w.pid, w.sops, w.alter).0;
      TryShape(s, w.pid, w.sops, w.alter);
      if w.status == 1 || error > 0 {
        PassWatched(s, rest);
        ConsWatch(s, w, Update(s, rest).queue);
      } else if error == 0 && w.alter {
        ConsWatch(s, w.(status := 1), rest);
      } else {
        if error == 0 {
          if Raises(w.sops) { RaiserGoes(s, w.pid, w.sops, w.alter); }
          ZeroKeeps(s, w.pid, w.sops, w.alter);
        }
        PassWatched(s, rest);
      }
    }
  }

  lemma NobodyThere(s: Sems)
    ensures NobodyReady(s, [])
  {
  }

  // ---- the events

  /** The call of process `pid` returns from its first attempt. */
  predicate Returns(s: Sems, pid: nat, sops: seq<SemBuf>)
    requires ValidFor(s, pid, sops)
  {
    Try(s, pid, sops, false).0 <= 0
  }

  /** After these events the queue has to be looked at: somebody who may have changed a value is done. */
  predicate Passes(st: State, e: Event)
    requires StateOk(st) && Enabled(st, e)
  {
    match e
    case Semop(pid, sops) =>
      EnsureValid(st, pid, sops);
      Alters(sops) && Returns(EnsureUndo(st.s, pid, sops), pid, sops)
    case Retry(k) => Returns(st.s, st.queue[k].pid, st.queue[k].sops)
    case Interrupt(k) => Alters(st.queue[k].sops)
    case Exit(pid) => FindUndo(st.s.undo, pid) < |st.s.undo|
    case SetVal(_, _) => true
    case SetAll(_) => true
  }

  /** The answer depends on the values, and on the adjustments only where SEM_UNDO is used. */
  lemma SameAnswer(c: Cells, c': Cells, sops: seq<SemBuf>)
    requires ValidOps(sops, c) && ValidOps(sops, c') && c.val == c'.val && (c.adj == c'.adj || !UsesUndo(sops))
    ensures Code(Perform(c, sops), sops) == Code(Perform(c', sops), sops)
  {
    hide Perform, Sum;
    forall k | 0 <= k < |sops|
      ensures Allowed(c, sops, k) == Allowed(c', sops, k) && MustWait(c, sops, k) == MustWait(c', sops, k)
    {
    }
    hide Allowed, MustWait;
    PerformAnswer(c, sops);
    PerformAnswer(c', sops);
    SomeBad(c, sops);
    if k: nat :| FirstBad(c, sops, k) { assert FirstBad(c', sops, k); }
  }

  /** A new structure of adjustments changes nothing for anybody asleep. */
  lemma EnsureSame(s: Sems, pid: nat, sops: seq<SemBuf>, w: Waiter)
    requires ValidFor(s, w.pid, w.sops)
    ensures var s' := EnsureUndo(s, pid, sops); ValidFor(s', w.pid, w.sops) && (Decidable(s', w) <==> Decidable(s, w))
  {
    hide Perform;
    var s' := EnsureUndo(s, pid, sops);
    var c, c' := CellsOf(s, w.pid), CellsOf(s', w.pid);
    if s' != s {
      assert s'.undo[1..] == s.undo;
      if w.pid != pid { assert c' == c; }
    }
    SameAnswer(c, c', w.sops);
  }

  lemma EnsureWatched(st: State, pid: nat, sops: seq<SemBuf>)
    requires Watched(st)
    ensures Watched(State(EnsureUndo(st.s, pid, sops), st.queue))
  {
    hide Try, ValidFor, EnsureUndo, Sleeper;
    forall k | 0 <= k < |st.queue|
      ensures var s', w := EnsureUndo(st.s, pid, sops), st.queue[k];
              ValidFor(s', w.pid, w.sops) && (Decidable(s', w) <==> Decidable(st.s, w))
    {
      EnsureSame(st.s, pid, sops, st.queue[k]);
    }
  }

  lemma SnocWatch(s: Sems, q: seq<Waiter>, w: Waiter)
    requires QueueValid(s, q) && ValidFor(s, w.pid, w.sops) && Sleeper(w) && Sleepers(q) && !Ready(s, w)
    requires SomeoneGoes(s, q) || NobodyReady(s, q)
    ensures Watched(State(s, q + [w]))
  {
    hide Try, ValidFor, Sleeper;
    var t := q + [w];
    assert t[|q|] == w && forall k :: 0 <= k < |q| ==> t[k] == q[k];
    if k :| 0 <= k < |q| && q[k].status == 1 && Decidable(s, q[k]) { assert t[k] == q[k]; }
  }

  lemma SemopWatched(st: State, pid: nat, sops: seq<SemBuf>)
    requires StateOk(st) && Enabled(st, Semop(pid, sops)) && Sleepers(st.queue) && !Risky(sops)
    ensures Watched(st) || Passes(st, Semop(pid, sops)) ==> Watched(AfterSemop(st, pid, sops).0)
  {
    hide Update, Try, ValidFor, Alters, Decreases, SomeoneGoes, NobodyReady, GoesFromZero, CanBlock, EnsureUndo;
    var s := EnsureUndo(st.s, pid, sops);
    EnsureValid(st, pid, sops);
    if Watched(st) { EnsureWatched(st, pid, sops); }
    var (error, s1) := Try(s, pid, sops, false);
    TryShape(s, pid, sops, false);
    ShapeKeepsValid(s, s1, st.queue);
    if error <= 0 {
      if Alters(sops) {
        TryOk(s, pid, sops, false);
        PassWatched(s1, st.queue);
      } else {
        ZeroKeeps(s, pid, sops, false);
      }
    } else if Watched(st) {
      var w := Waiter(pid, sops, Decreases(sops), -EINTR);
      if Raises(sops) && GoesFromZero(sops) { RaiserReturns(s, pid, sops); }
      AnswerAnyway(s, pid, sops);
      if Alters(sops) { SnocWatch(s, st.queue, w); } else { ConsWatch(s, w, st.queue); }
    }
  }

  /** The answer is the same whether or not the operations are taken back. */
  lemma AnswerAnyway(s: Sems, pid: nat, sops: seq<SemBuf>)
    requires ValidFor(s, pid, sops)
    ensures Try(s, pid, sops, true).0 == Try(s, pid, sops, false).0
  {
  }

  lemma RetryWatched(st: State, k: nat)
    requires StateOk(st) && Enabled(st, Retry(k)) && Sleepers(st.queue)
    ensures Watched(st) || Passes(st, Retry(k)) ==> Watched(AfterRetry(st, k).0)
  {
    hide Update, Try, ValidFor, Alters, RemoveAt, FindUndo;
    var q, rest := st.queue[k], RemoveAt(st.queue, k);
    assert ValidFor(st.s, q.pid, q.sops) && Sleeper(q);
    var (error, s1) := Try(st.s, q.pid, q.sops, false);
    TryShape(st.s, q.pid, q.sops, false);
    RemoveValid(st.s, st.queue, k);
    ShapeKeepsValid(st.s, s1, rest);
    LowersAlters(q.sops);
    AnswerAnyway(st.s, q.pid, q.sops);
    if error <= 0 {
      RemoveSleepers(st.queue, k);
      TryOk(st.s, q.pid, q.sops, false);
      PassWatched(s1, rest);
    } else if Watched(st) {
      var q' := st.queue[k := q.(status := -EINTR)];
      forall i | 0 <= i < |q'| ensures i != k ==> q'[i] == st.queue[i] {}
      assert !Ready(st.s, q'[k]);
      if i :| 0 <= i < |st.queue| && st.queue[i].status == 1 && Decidable(st.s, st.queue[i]) { assert q'[i] == st.queue[i]; }
    }
  }

  lemma LowersAlters(sops: seq<SemBuf>)
    ensures Decreases(sops) ==> Alters(sops)
  {
  }

  lemma RemoveSleepers(q: seq<Waiter>, k: nat)
    requires Sleepers(q) && k < |q|
    ensures Sleepers(RemoveAt(q, k))
  {
  }

  /** A sleeper that was not told to retry can go without being missed. */
  lemma RemoveWatched(s: Sems, q: seq<Waiter>, k: nat)
    requires Watched(State(s, q)) && k < |q| && q[k].status != 1
    ensures Watched(State(s, RemoveAt(q, k)))
  {
    hide Try, ValidFor, Sleeper;
    var r := RemoveAt(q, k);
    RemoveValid(s, q, k);
    assert forall i :: 0 <= i < |r| ==> r[i] == if i < k then q[i] else q[i + 1];
    if i :| 0 <= i < |q| && q[i].status == 1 && Decidable(s, q[i]) {
      assert i < k ==> r[i] == q[i];
      assert i > k ==> r[i - 1] == q[i];
    }
  }

  lemma InterruptWatched(st: State, k: nat)
    requires StateOk(st) && Enabled(st, Interrupt(k)) && Sleepers(st.queue)
    ensures Watched(st) || Passes(st, Interrupt(k)) ==> Watched(AfterInterrupt(st, k).0)
  {
    hide Update, Try, ValidFor, Alters, RemoveAt, Watched;
    RemoveValid(st.s, st.queue, k);
    RemoveSleepers(st.queue, k);
    if Alters(st.queue[k].sops) {
      PassWatched(st.s, RemoveAt(st.queue, k));
    } else if Watched(st) {
      RemoveWatched(st.s, st.queue, k);
    }
  }

  /** Nobody is asleep as process `pid`. */
  predicate Awake(q: seq<Waiter>, pid: nat) { forall k :: 0 <= k < |q| ==> q[k].pid != pid }

  lemma {:induction false} WithoutNobody(q: seq<Waiter>, pid: nat)
    requires Awake(q, pid)
    ensures WithoutPid(q, pid) == q
  {
    if q != [] { WithoutNobody(q[1..], pid); }
  }

  lemma SettledOk(s: Sems, k: nat)
    requires k < |s.undo|
    ensures CellsOk(Settled(s, k).val)
  {
  }

  lemma ExitWatched(st: State, pid: nat)
    requires StateOk(st) && Sleepers(st.queue) && Awake(st.queue, pid)
    ensures Watched(st) || Passes(st, Exit(pid)) ==> Watched(AfterExit(st, pid).0)
  {
    hide Update, Try, ValidFor, FindUndo, Settled, Sleeper;
    WithoutNobody(st.queue, pid);
    if FindUndo(st.s.undo, pid) < |st.s.undo| {
      ExitValid(st, pid);
      SettledOk(st.s, FindUndo(st.s.undo, pid));
      PassWatched(Settled(st.s, FindUndo(st.s.undo, pid)), st.queue);
    }
  }

  /** No array is risky; and a process that exits is not asleep. */
  predicate Orderly(st: State, e: Event) {
    match e
    case Semop(_, sops) => !Risky(sops)
    case Exit(pid) => Awake(st.queue, pid)
    case _ => true
  }

  /** No event loses a wake-up, and every event that passes over the queue mends what was lost before it. */
  lemma StepWatched(st: State, e: Event)
    requires StateOk(st) && Enabled(st, e) && Sleepers(st.queue) && Orderly(st, e)
    ensures Watched(st) || Passes(st, e) ==> Watched(Step(st, e).0)
  {
    hide Update, Try, ValidFor, Risky, SomeoneGoes, NobodyReady, Sleeper;
    match e {
      case Semop(pid, sops) => SemopWatched(st, pid, sops);
      case Retry(k) => RetryWatched(st, k);
      case Interrupt(k) => InterruptWatched(st, k);
      case Exit(pid) => ExitWatched(st, pid);
      case SetVal(n, x) =>
        ClearAdjShape(st.s.undo, n);
        var s1 := Sems(st.s.val[n := x], ClearAdj(st.s.undo, n));
        ShapeKeepsValid(st.s, s1, st.queue);
        PassWatched(s1, st.queue);
      case SetAll(vals) =>
        ClearAllShape(st.s.undo);
        var s1 := Sems(vals, ClearAll(st.s.undo));
        ShapeKeepsValid(st.s, s1, st.queue);
        PassWatched(s1, st.queue);
    }
  }

  lemma WatchedSleepers(st: State)
    requires Watched(st)
    ensures Sleepers(st.queue)
  {
  }

  predicate OrderlyRun(st: State, run: seq<Event>)
    requires StateOk(st) && Possible(st, run)
    decreases |run|
  {
    run == [] || (Orderly(st, run[0]) && (StepOk(st, run[0]); OrderlyRun(Step(st, run[0]).0, run[1..])))
  }

  /** In every such run from an empty queue no wake-up is lost. */
  lemma {:induction false} RunWatched(st: State, run: seq<Event>)
    requires StateOk(st) && Possible(st, run) && OrderlyRun(st, run) && Watched(st)
    ensures Watched(Final(st, run))
    decreases |run|
  {
    hide Step, Enabled, Orderly, Watched, SemsOk, QueueValid, Passes;
    if run != [] {
      WatchedSleepers(st);
      StepOk(st, run[0]);
      StepWatched(st, run[0]);
      RunWatched(Step(st, run[0]).0, run[1..]);
    }
  }

  // ---- a wake-up that is lost

  /** Semaphore `z` has the value `w`, the others are zero. */
  function OneUp(n: nat, z: nat, w: nat): (v: seq<int>)
    ensures |v| == n && forall i :: 0 <= i < n ==> v[i] == if i == z then w else 0
  {
    if z < n then Zeros(n)[z := w] else Zeros(n)
  }

  /** Lower semaphore `n` by `x`, to zero. */
  function Exactly(n: nat, x: int): seq<SemBuf> { [SemBuf(n, -x, false, false), SemBuf(n, 0, false, false)] }

  function Lower(n: nat, x: int): seq<SemBuf> { [SemBuf(n, -x, false, false)] }

  /** Such an array waits for a value of just `x`. */
  lemma ExactlyAnswer(s: Sems, pid: nat, n: nat, x: int, doUndo: bool)
    requires n < |s.val| && x > 0 && (s.val[n] == x || 0 <= s.val[n] < 0x8000)
    ensures ValidFor(s, pid, Exactly(n, x))
    ensures Try(s, pid, Exactly(n, x), doUndo).0 == if s.val[n] == x then 0 else 1
    ensures s.val[n] != x ==> Try(s, pid, Exactly(n, x), doUndo).1 == s
  {
    hide Try, Perform;
    var sops, c := Exactly(n, x), CellsOf(s, pid);
    assert sops[..1] == Lower(n, x) && sops[..2] == sops && Lower(n, x)[1..] == [] && sops[1..][1..] == [];
    assert Sum(Lower(n, x), n, false) == -x && Sum(sops, n, false) == -x;
    TryMeans(s, pid, sops, doUndo);
    assert Allowed(c, sops, 0) <==> s.val[n] >= x;
    assert Allowed(c, sops, 1) <==> s.val[n] == x;
    if s.val[n] < x { assert FirstBad(c, sops, 0) && MustWait(c, sops, 0); }
    if s.val[n] > x { assert FirstBad(c, sops, 1) && MustWait(c, sops, 1); }
    if s.val[n] == x { assert forall k :: 0 <= k < |sops| ==> Allowed(c, sops, k); }
  }

  lemma LowerAnswer(s: Sems, pid: nat, n: nat, x: int)
    requires n < |s.val| && x > 0 && s.val[n] == x
    ensures ValidFor(s, pid, Lower(n, x)) && Try(s, pid, Lower(n, x), false) == (0, s.(val := s.val[n := 0]))
  {
    hide Try, Perform;
    var sops, c := Lower(n, x), CellsOf(s, pid);
    assert sops[..1] == sops && sops[1..] == [];
    assert Sum(sops, n, false) == -x;
    TryMeans(s, pid, sops, false);
    TryShape(s, pid, sops, false);
    assert Allowed(c, sops, 0);
    assert EffectAll(c, sops) == Effect(c, sops[0]);
    var k := FindUndo(s.undo, pid);
    if k < |s.undo| { assert s.undo[k := s.undo[k]] == s.undo; }
  }

  /** The adjustments of a process that has made none. */
  predicate NoneMade(c: Cells) { forall n :: 0 <= n < |c.adj| ==> c.adj[n] == 0 }

  lemma UndoFitsFromZero(c: Cells, sops: seq<SemBuf>, k: nat)
    requires ValidOps(sops, c) && k < |sops| && NoneMade(c) && !Decreases(sops) && GoesFromZero(sops)
    ensures UndoFits(c, sops, k)
  {
    hide Sum, Decreases;
    PrefixSum(sops, k + 1, sops[k].num);
  }

  /** From zero the array goes through. */
  lemma GoesThere(s: Sems, pid: nat, sops: seq<SemBuf>)
    requires ValidFor(s, pid, sops) && NoneMade(CellsOf(s, pid)) && Raises(sops) && GoesFromZero(sops)
    requires forall n :: 0 <= n < |s.val| ==> s.val[n] == 0
    ensures var (error, t) := Try(s, pid, sops, false);
            error == 0 && |t.val| == |s.val| && forall n :: 0 <= n < |s.val| ==> t.val[n] == Sum(sops, n, false)
  {
    hide Try, Sum, Alters, Decreases;
    var c := CellsOf(s, pid);
    TryMeans(s, pid, sops, false);
    forall k | 0 <= k < |sops| ensures Allowed(c, sops, k) { UndoFitsFromZero(c, sops, k); }
  }

  /** While the semaphore of its first wait for zero is not zero, it sleeps. */
  lemma SleepsThere(s: Sems, pid: nat, sops: seq<SemBuf>, i: nat)
    requires ValidFor(s, pid, sops) && NoneMade(CellsOf(s, pid)) && Raises(sops) && GoesFromZero(sops)
    requires i < |sops| && FirstZeroOp(sops, i) && !sops[i].nowait && s.val[sops[i].num] > 0
    requires forall n :: 0 <= n < |s.val| && n != sops[i].num ==> s.val[n] == 0
    ensures Try(s, pid, sops, false) == (1, s)
  {
    hide Try, Sum, Alters, Decreases;
    var c, z := CellsOf(s, pid), sops[i].num;
    TryMeans(s, pid, sops, false);
    forall k | 0 <= k < i ensures Allowed(c, sops, k) {
      if sops[k].num == z { NoRaiseBefore(sops, i, k); }
      UndoFitsFromZero(c, sops, k);
    }
    assert MustWait(c, sops, i) && FirstBad(c, sops, i);
  }

  /** What a semaphore is raised by before it is to be zero is nothing. */
  lemma NoRaiseBefore(sops: seq<SemBuf>, i: nat, k: nat)
    requires !Decreases(sops) && k < i < |sops| && Sum(sops[..i + 1], sops[i].num, false) == 0 && sops[k].num == sops[i].num
    ensures sops[k].op == 0
  {
    var n := sops[i].num;
    assert sops[..i + 1] == sops[..k] + ([sops[k]] + sops[k + 1..i + 1]);
    SumConcat(sops[..k], [sops[k]] + sops[k + 1..i + 1], n);
    SumConcat([sops[k]], sops[k + 1..i + 1], n);
    PrefixSum(sops, k, n);
    NoDecreaseIn(sops, k + 1, i + 1);
    SumNonNegative(sops[k + 1..i + 1], n);
    assert Sum([sops[k]], n, false) == sops[k].op;
    PositiveOp(sops, k);
  }

  lemma {:induction false} SumConcat(a: seq<SemBuf>, b: seq<SemBuf>, n: nat)
    ensures Sum(a + b, n, false) == Sum(a, n, false) + Sum(b, n, false)
  {
    if a == [] {
      assert a + b == b;
    } else {
      assert (a + b)[1..] == a[1..] + b;
      SumConcat(a[1..], b, n);
    }
  }

  /** A semaphore that the array raises. */
  lemma SomeRaise(sops: seq<SemBuf>) returns (n: nat)
    requires Raises(sops)
    ensures Sum(sops, n, false) > 0 && exists i :: 0 <= i < |sops| && sops[i].num == n
  {
    var i :| 0 <= i < |sops| && sops[i].op != 0;
    n := sops[i].num;
    assert sops == sops[..i] + ([sops[i]] + sops[i + 1..]);
    SumConcat(sops[..i], [sops[i]] + sops[i + 1..], n);
    SumConcat([sops[i]], sops[i + 1..], n);
    PrefixSum(sops, i, n);
    NoDecreaseIn(sops, i + 1, |sops|);
    assert sops[i + 1..|sops|] == sops[i + 1..];
    SumNonNegative(sops[i + 1..], n);
    assert Sum([sops[i]], n, false) == sops[i].op;
    PositiveOp(sops, i);
  }

  /** The pass that lets the second sleeper raise what the first is waiting for. */
  lemma PassLoses(s: Sems, a: Waiter, b: Waiter, m: nat, x: int)
    requires m < |s.val| && x > 0 && (forall n :: 0 <= n < |s.val| ==> s.val[n] == 0)
    requires a.sops == Exactly(m, x) && a.alter && a.status != 1 && !b.alter && b.status != 1
    requires ValidFor(s, b.pid, b.sops) && NoneMade(CellsOf(s, b.pid)) && Raises(b.sops) && GoesFromZero(b.sops)
    requires Sum(b.sops, m, false) == x
    ensures QueueValid(s, [a, b])
    ensures var p := Update(s, [a, b]); |p.s.val| == |s.val| && p.s.val[m] == x && p.queue == [a]
  {
    hide Try, ValidFor, Sum, GoesFromZero, Alters, Decreases, NoneMade;
    ExactlyAnswer(s, a.pid, m, x, true);
    GoesThere(s, b.pid, b.sops);
    var t := Try(s, b.pid, b.sops, false).1;
    assert [a, b][1..] == [b] && [b][1..] == [];
    assert QueueValid(s, [b]) && QueueValid(s, [a, b]);
    assert Update(t, []) == Pass(t, [], []);
    assert Update(s, [b]) == Pass(t, [], [b.(status := 0)]);
    assert Update(s, [a, b]) == Keep(a, Update(s, [b]));
  }

  lemma RunCons(st: State, e: Event, st1: State, rest: seq<Event>)
    requires StateOk(st) && Enabled(st, e) && st1 == Step(st, e).0 && StateOk(st1) && Possible(st1, rest)
    ensures Possible(st, [e] + rest) && Final(st, [e] + rest) == Final(st1, rest)
  {
    hide Step, Enabled, StateOk;
    assert ([e] + rest)[1..] == rest;
  }

  /** A call that cannot go through at once and would change something joins the end of the queue. */
  lemma Joins(st: State, pid: nat, sops: seq<SemBuf>)
    requires StateOk(st) && Enabled(st, Semop(pid, sops)) && Alters(sops)
    requires var s := EnsureUndo(st.s, pid, sops); ValidFor(s, pid, sops) && Try(s, pid, sops, false).0 == 1
    ensures AfterSemop(st, pid, sops).0 ==
            State(EnsureUndo(st.s, pid, sops), st.queue + [Waiter(pid, sops, Decreases(sops), -EINTR)])
  {
    hide Try, Update, ValidFor, Alters, Decreases, EnsureUndo;
  }

  lemma Kinds(n: nat, x: int)
    requires x > 0
    ensures Alters(Exactly(n, x)) && Decreases(Exactly(n, x)) && !UsesUndo(Exactly(n, x))
    ensures Alters(Lower(n, x)) && Decreases(Lower(n, x)) && !UsesUndo(Lower(n, x))
  {
    assert Exactly(n, x)[0].op < 0 && Lower(n, x)[0].op < 0;
  }

  /** Nobody will look at the queue again, although a sleeper could go through. */
  ghost predicate Lost(st: State) {
    QueueValid(st.s, st.queue) && !SomeoneGoes(st.s, st.queue) && !NobodyReady(st.s, st.queue)
  }

  lemma FreshAdjustments(s: Sems, pid: nat, sops: seq<SemBuf>)
    requires s.undo == []
    ensures var t := EnsureUndo(s, pid, sops); t.val == s.val && NoneMade(CellsOf(t, pid))
  {
  }

  lemma SameShapeZero(s: Sems, pid: nat, sops: seq<SemBuf>, z: nat)
    requires z < |s.val| && ValidFor(s, pid, sops) && NoneMade(CellsOf(s, pid))
    ensures var t := s.(val := s.val[z := 0]); ValidFor(t, pid, sops) && NoneMade(CellsOf(t, pid))
  {
  }

  /** A call without SEM_UNDO that goes through and changes something is followed by a pass. */
  lemma LooksOn(st: State, pid: nat, sops: seq<SemBuf>, s1: Sems)
    requires StateOk(st) && Enabled(st, Semop(pid, sops)) && Alters(sops) && !UsesUndo(sops)
    requires ValidFor(st.s, pid, sops) && Try(st.s, pid, sops, false) == (0, s1) && QueueValid(s1, st.queue)
    ensures var p := Update(s1, st.queue); AfterSemop(st, pid, sops).0 == State(p.s, p.queue)
  {
    hide Try, Update, ValidFor, Alters, Decreases, UsesUndo;
  }

  lemma Overlooked(st: State, a: Waiter)
    requires st.queue == [a] && a.status != 1 && ValidFor(st.s, a.pid, a.sops) && Try(st.s, a.pid, a.sops, a.alter).0 == 0
    ensures Lost(st)
  {
    hide Try, ValidFor;
    assert st.queue[0] == a && Ready(st.s, st.queue[0]);
  }

  /** The two sleepers, and the set of semaphores while they are asleep. */
  function First(m: nat, x: int): Waiter { Waiter(1, Exactly(m, x), true, -EINTR) }

  function Second(sops: seq<SemBuf>): Waiter { Waiter(2, sops, false, -EINTR) }

  function Waiting(sops: seq<SemBuf>, nsems: nat, z: nat, w: nat): Sems {
    EnsureUndo(Sems(OneUp(nsems, z, w), []), 2, sops)
  }

  /** Semaphore `z` keeps the array waiting, which will raise semaphore `m` by `x`. */
  predicate Trap(sops: seq<SemBuf>, nsems: nat, i: nat, m: nat, x: int, w: nat) {
    && Raises(sops) && GoesFromZero(sops) && (forall k :: 0 <= k < |sops| ==> sops[k].num < nsems)
    && i < |sops| && FirstZeroOp(sops, i) && !sops[i].nowait
    && m < nsems && x == Sum(sops, m, false) > 0 && 0 < w <= 2 && w != x
  }

  lemma FirstSleeps(sops: seq<SemBuf>, nsems: nat, i: nat, m: nat, x: int, w: nat)
    requires Trap(sops, nsems, i, m, x, w)
    ensures var st, e := State(Sems(OneUp(nsems, sops[i].num, w), []), []), Semop(1, Exactly(m, x));
            && StateOk(st) && Enabled(st, e)
            && Step(st, e).0 == State(st.s, [First(m, x)]) && StateOk(State(st.s, [First(m, x)]))
  {
    hide Update, Try, Sum, GoesFromZero, Raises, FirstZeroOp, AfterSemop, ValidFor;
    var st := State(Sems(OneUp(nsems, sops[i].num, w), []), []);
    Kinds(m, x);
    ExactlyAnswer(st.s, 1, m, x, false);
    assert Enabled(st, Semop(1, Exactly(m, x)));
    assert EnsureUndo(st.s, 1, Exactly(m, x)) == st.s;
    Joins(st, 1, Exactly(m, x));
    StepOk(st, Semop(1, Exactly(m, x)));
    assert [] + [First(m, x)] == [First(m, x)];
  }

  lemma SecondSleeps(sops: seq<SemBuf>, nsems: nat, i: nat, m: nat, x: int, w: nat)
    requires Trap(sops, nsems, i, m, x, w)
    requires StateOk(State(Sems(OneUp(nsems, sops[i].num, w), []), [First(m, x)]))
    ensures var st, e := State(Sems(OneUp(nsems, sops[i].num, w), []), [First(m, x)]), Semop(2, sops);
            var st2 := State(Waiting(sops, nsems, sops[i].num, w), [First(m, x), Second(sops)]);
            Enabled(st, e) && Step(st, e).0 == st2 && StateOk(st2)
  {
    hide Update, Try, Sum, GoesFromZero, Alters, Decreases, FirstZeroOp, AfterSemop, UsesUndo;
    var st := State(Sems(OneUp(nsems, sops[i].num, w), []), [First(m, x)]);
    FreshAdjustments(st.s, 2, sops);
    EnsureValid(st, 2, sops);
    SleepsThere(Waiting(sops, nsems, sops[i].num, w), 2, sops, i);
    Joins(st, 2, sops);
    StepOk(st, Semop(2, sops));
    assert [First(m, x)] + [Second(sops)] == [First(m, x), Second(sops)];
  }

  lemma ThenLost(sops: seq<SemBuf>, nsems: nat, i: nat, m: nat, x: int, w: nat)
    requires Trap(sops, nsems, i, m, x, w)
    requires StateOk(State(Waiting(sops, nsems, sops[i].num, w), [First(m, x), Second(sops)]))
    ensures var st := State(Waiting(sops, nsems, sops[i].num, w), [First(m, x), Second(sops)]);
            var e := Semop(3, Lower(sops[i].num, w));
            Enabled(st, e) && StateOk(Step(st, e).0) && Lost(Step(st, e).0)
  {
    hide Update, Try, Sum, GoesFromZero, Alters, Decreases, FirstZeroOp, AfterSemop, UsesUndo, EnsureUndo, Lost;
    var z, s1 := sops[i].num, Waiting(sops, nsems, sops[i].num, w);
    FreshAdjustments(Sems(OneUp(nsems, z, w), []), 2, sops);
    var st, s2 := State(s1, [First(m, x), Second(sops)]), s1.(val := s1.val[z := 0]);
    Kinds(z, w);
    assert ValidFor(s1, 2, sops) by { assert st.queue[1] == Second(sops); }
    LowerAnswer(s1, 3, z, w);
    SameShapeZero(s1, 2, sops, z);
    PassLoses(s2, First(m, x), Second(sops), m, x);
    LooksOn(st, 3, Lower(z, w), s2);
    StepOk(st, Semop(3, Lower(z, w)));
    var st3 := Step(st, Semop(3, Lower(z, w))).0;
    ExactlyAnswer(st3.s, 1, m, x, true);
    Overlooked(st3, First(m, x));
  }

  lemma SafeCalls(n: nat, x: int)
    requires x > 0
    ensures !Risky(Exactly(n, x)) && !Risky(Lower(n, x))
  {
    Kinds(n, x);
  }

  /** A run without exits in which no array but perhaps `sops` is risky. */
  predicate OtherwiseSafe(run: seq<Event>, sops: seq<SemBuf>) {
    forall i :: 0 <= i < |run| ==> !run[i].Exit? && (run[i].Semop? ==> run[i].sops == sops || !Risky(run[i].sops))
  }

  /**
   With every risky array a wake-up is lost, in three calls. Process 1 waits for just the value to which the array will
   raise a semaphore. Process 2 asks for the array, and sleeps on a wait for zero. Process 3 brings that semaphore to zero.
   Then process 2 goes through, and process 1 sleeps on.
   */
  lemma RiskyLoses(sops: seq<SemBuf>, nsems: nat) returns (st: State, run: seq<Event>)
    requires Risky(sops) && forall i :: 0 <= i < |sops| ==> sops[i].num < nsems
    ensures StateOk(st) && st.queue == [] && st.s.undo == [] && forall n :: 0 <= n < |st.s.val| ==> st.s.val[n] <= 2
    ensures |run| == 3 && OtherwiseSafe(run, sops) && Possible(st, run) && Lost(Final(st, run))
  {
    hide Sum, GoesFromZero, Raises, FirstZeroOp, StateOk, Enabled, Step, Lost, Waiting;
    var i :| 0 <= i < |sops| && FirstZeroOp(sops, i) && !sops[i].nowait;
    var m := SomeRaise(sops);
    var x := Sum(sops, m, false);
    var w := if x == 1 then 2 else 1;
    FirstSleeps(sops, nsems, i, m, x, w);
    SecondSleeps(sops, nsems, i, m, x, w);
    ThenLost(sops, nsems, i, m, x, w);
    var e1, e2, e3 := Semop(1, Exactly(m, x)), Semop(2, sops), Semop(3, Lower(sops[i].num, w));
    st, run := State(Sems(OneUp(nsems, sops[i].num, w), []), []), [e1, e2, e3];
    var st1, st2 := State(st.s, [First(m, x)]), State(Waiting(sops, nsems, sops[i].num, w), [First(m, x), Second(sops)]);
    RunCons(st2, e3, Step(st2, e3).0, []);
    RunCons(st1, e2, st2, [e3]);
    RunCons(st, e1, st1, [e2, e3]);
    assert [e3] + [] == [e3] && [e2] + [e3] == [e2, e3] && [e1] + [e2, e3] == run;
    SafeCalls(m, x);
    SafeCalls(sops[i].num, w);
  }

  lemma {:induction false} SafeIsOrderly(st: State, run: seq<Event>, sops: seq<SemBuf>)
    requires StateOk(st) && Possible(st, run) && OtherwiseSafe(run, sops) && !Risky(sops)
    ensures OrderlyRun(st, run)
    decreases |run|
  {
    hide Step, Enabled, Risky, StateOk;
    if run != [] {
      assert Orderly(st, run[0]);
      StepOk(st, run[0]);
      SafeIsOrderly(Step(st, run[0]).0, run[1..], sops);
    }
  }

  /** A run from an empty queue at whose end a wake-up is lost. */
  ghost predicate Loses(st: State, run: seq<Event>) {
    StateOk(st) && st.queue == [] && Possible(st, run) && Lost(Final(st, run))
  }

  /** An array of operations is risky if and only if with it, and arrays that are not, a wake-up can be lost. */
  lemma LossIff(sops: seq<SemBuf>, nsems: nat)
    requires forall i :: 0 <= i < |sops| ==> sops[i].num < nsems
    ensures Risky(sops) <==> exists st, run :: OtherwiseSafe(run, sops) && Loses(st, run)
  {
    if Risky(sops) {
      hide Risky, Lost, Possible, Final, StateOk, OtherwiseSafe;
      var st, run := RiskyLoses(sops, nsems);
      assert Loses(st, run);
    } else if st, run :| OtherwiseSafe(run, sops) && Loses(st, run) {
      hide Risky, OtherwiseSafe, Possible, Final, OrderlyRun;
      assert Watched(st) by { EmptyWatched(st); }
      SafeIsOrderly(st, run, sops);
      RunWatched(st, run);
      assert false;
    }
  }

  lemma EmptyWatched(st: State)
    requires st.queue == []
    ensures Watched(st)
  {
  }
}
