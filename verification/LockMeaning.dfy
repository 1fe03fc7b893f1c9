/**
 What the lock table means: for each file, owner and byte, the types held. The exact condition under which every
 event of a run changes that as it should, and what then follows for the whole run.
 */
module LockMeaning {
  import opened FileLocks
  import opened LockEdit
  import opened LockWrap
  import opened LockAnyList
  import opened LockTable
  import opened LockBlocking

  /** Whether `o` should hold type `k` on byte `b` of a file after an event, if `h` says whether it does before. */
  predicate HeldAfter(h: bool, e: Event, inode: nat, o: Owner, b: int, k: Kind) {
    match e
    case Grant(i, r) => if i == inode && InReq(r, o, b) then k == r.kind != Unlock else h
    case Close(i, files) => h && !(i == inode && o.files == files)
    case Sleep(_, _) => h
    case Awake(_) => h
  }

  /** The same over a run: the last event that concerns the byte decides. */
  predicate Replay(h: bool, run: seq<Event>, inode: nat, o: Owner, b: int, k: Kind)
    decreases |run|
  {
    if run == [] then h else Replay(HeldAfter(h, run[0], inode, o, b, k), run[1..], inode, o, b, k)
  }

  predicate HeldIn(t: Table, inode: nat, o: Owner, b: int, k: Kind) {
    Holds(Locks(t, inode), o, b, k)
  }

  /** The event changes what is held as it should, for every file, owner, byte and type. */
  ghost predicate StepExact(t: Table, e: Event) {
    forall inode, o, b, k :: HeldIn(After(t, e), inode, o, b, k) <==> HeldAfter(HeldIn(t, inode, o, b, k), e, inode, o, b, k)
  }

  /** Each owner has one type of lock only on each byte. */
  ghost predicate AllSingle(t: Table) {
    forall inode, o :: Single(Locks(t, inode), o)
  }

  predicate GrantLeavesNone(t: Table, e: Event) {
    e.Grant? ==> LeavesNone(Locks(t, e.inode), e.req)
  }

  /** Closing releases every byte held through `files` and no other. */
  lemma {:induction false} WithoutHolds(list: seq<Lock>, files: nat, o: Owner, b: int, k: Kind)
    ensures Holds(Without(list, files), o, b, k) <==> Holds(list, o, b, k) && o.files != files
  {
    if list != [] {
      var l, rest := list[0], list[1..];
      WithoutHolds(rest, files, o, b, k);
      assert list == [l] + rest;
      HoldsConcat([l], rest, o, b, k);
      HoldsConcat([l], Without(rest, files), o, b, k);
      HoldsOne(l, o, b, k);
    }
  }

  /** In any state a run can reach, a request is exact if and only if it leaves none of the other type and costs none. */
  lemma GrantExact(t: Table, inode: nat, r: Request)
    requires TableInv(t) && Enabled(t, Grant(inode, r))
    ensures var list := Locks(t, inode);
            && (StepExact(t, Grant(inode, r)) <==> LeavesNone(list, r) && KeepsOutside(list, r))
            && (AllSingle(t) ==> KeepsOutside(list, r))
  {
    hide TableInv, Single, LeavesNone, KeepsOutside, Apply, Holds;
    var e, list := Grant(inode, r), Locks(t, inode);
    var list' := Locks(After(t, e), inode);
    assert AllProper(list) by { LocksInv(t, inode); }
    if AllSingle(t) { SingleKeepsOutside(list, r); }
    GrantExactIff(list, r, t.nextId, t.nextId + 1);
    assert forall i :: i != inode ==> Locks(After(t, e), i) == Locks(t, i);
    forall o, b, k ensures HeldAfter(HeldIn(t, inode, o, b, k), e, inode, o, b, k) <==> ShouldHold(list, r, o, b, k) {}
    if StepExact(t, e) {
      forall o, b, k ensures Holds(list', o, b, k) <==> ShouldHold(list, r, o, b, k) {
        assert HeldIn(After(t, e), inode, o, b, k) <==> HeldAfter(HeldIn(t, inode, o, b, k), e, inode, o, b, k);
      }
    }
  }

  lemma CloseExact(t: Table, inode: nat, files: nat)
    ensures StepExact(t, Close(inode, files))
  {
    hide Holds, Without;
    var e := Close(inode, files);
    forall i, o, b, k ensures HeldIn(After(t, e), i, o, b, k) <==> HeldAfter(HeldIn(t, i, o, b, k), e, i, o, b, k) {
      WithoutHolds(Locks(t, inode), files, o, b, k);
    }
  }

  /** An event is exact if and only if it is no request that leaves another type in its range. */
  lemma StepExactIff(t: Table, e: Event)
    requires TableInv(t) && AllSingle(t) && Enabled(t, e)
    ensures StepExact(t, e) <==> GrantLeavesNone(t, e)
    ensures StepExact(t, e) ==> AllSingle(After(t, e))
  {
    hide TableInv, LeavesNone, KeepsOutside, Apply, Without;
    match e {
      case Grant(inode, r) => GrantExact(t, inode, r);
      case Close(inode, files) => CloseExact(t, inode, files);
      case Sleep(_, _) =>
      case Awake(_) =>
    }
    if StepExact(t, e) { ExactIsSingle(t, e); }
  }

  lemma ExactIsSingle(t: Table, e: Event)
    requires AllSingle(t) && StepExact(t, e)
    ensures AllSingle(After(t, e))
  {
    hide After, Holds;
    forall inode, o ensures Single(Locks(After(t, e), inode), o) {
      assert Single(Locks(t, inode), o);
      forall b, k1, k2 | Holds(Locks(After(t, e), inode), o, b, k1) && Holds(Locks(After(t, e), inode), o, b, k2)
        ensures k1 == k2
      {
        assert HeldIn(After(t, e), inode, o, b, k1) && HeldIn(After(t, e), inode, o, b, k2);
      }
    }
  }

  // ---- runs

  ghost predicate RunExact(t: Table, run: seq<Event>)
    decreases |run|
  {
    run == [] || (StepExact(t, run[0]) && RunExact(After(t, run[0]), run[1..]))
  }

  predicate RunLeavesNone(t: Table, run: seq<Event>)
    decreases |run|
  {
    run == [] || (GrantLeavesNone(t, run[0]) && RunLeavesNone(After(t, run[0]), run[1..]))
  }

  /** Every event of a run is exact if and only if no request of the run leaves another type in its range. */
  lemma {:induction false} EveryRunIsExact(t: Table, run: seq<Event>)
    requires TableInv(t) && AllSingle(t) && Possible(t, run)
    ensures RunExact(t, run) <==> RunLeavesNone(t, run)
    decreases |run|
  {
    hide TableInv, AllSingle, StepExact, GrantLeavesNone, After, Enabled;
    if run != [] {
      StepExactIff(t, run[0]);
      StepInv(t, run[0]);
      if StepExact(t, run[0]) { EveryRunIsExact(After(t, run[0]), run[1..]); }
    }
  }

  /** In such a run the lists stand for a map from owner and byte to lock type, changed by each event alone. */
  lemma {:induction false} EveryRunMeans(t: Table, run: seq<Event>, inode: nat, o: Owner, b: int, k: Kind)
    requires RunExact(t, run)
    ensures HeldIn(Final(t, run), inode, o, b, k) <==> Replay(HeldIn(t, inode, o, b, k), run, inode, o, b, k)
    decreases |run|
  {
    hide HeldAfter, After, HeldIn;
    if run != [] {
      EveryRunMeans(After(t, run[0]), run[1..], inode, o, b, k);
    }
  }

  /** From the empty table: what is held at the end of a run is what its events say, one after the other. */
  lemma EveryRunFromEmpty(run: seq<Event>, inode: nat, o: Owner, b: int, k: Kind)
    requires Possible(EMPTY, run) && RunLeavesNone(EMPTY, run)
    ensures HeldIn(Final(EMPTY, run), inode, o, b, k) <==> Replay(false, run, inode, o, b, k)
  {
    hide Possible, RunLeavesNone, RunExact, Final, Replay;
    EmptyInv();
    assert AllSingle(EMPTY);
    EveryRunIsExact(EMPTY, run);
    EveryRunMeans(EMPTY, run, inode, o, b, k);
  }

  // ---- runs that keep clear of the end of the file

  /** If no request of a run meets the wrap-around with a lock to merge, none leaves another type in its range. */
  lemma {:induction false} SafeRunLeavesNone(t: Table, run: seq<Event>)
    requires AllCanonical(t) && Possible(t, run) && RunMergeSafe(t, run)
    ensures RunLeavesNone(t, run)
    decreases |run|
  {
    hide AllCanonical, Enabled, After, LeavesNone;
    if run != [] {
      var e := run[0];
      if e.Grant? {
        LocksCanonical(t, e.inode);
        SafeHidesNone(Locks(t, e.inode), e.req);
        assert ValidRequest(e.req) by { GrantIsValid(t, e); }
        NormalLeavesNone(Locks(t, e.inode), e.req);
      }
      StepCanonical(t, e);
      SafeRunLeavesNone(After(t, e), run[1..]);
    }
  }

  lemma GrantIsValid(t: Table, e: Event)
    requires Enabled(t, e) && e.Grant?
    ensures ValidRequest(e.req)
  {
  }

  lemma SafeHidesNone(list: seq<Lock>, r: Request)
    requires MergeSafe(list, r)
    ensures NothingHidden(list, r)
  {
  }

  /** No request for a lock reaches the last byte a file can have. */
  predicate EndsBelowMax(run: seq<Event>) {
    forall i :: 0 <= i < |run| && run[i].Grant? ==> run[i].req.kind == Unlock || run[i].req.end < OFFSET_MAX
  }

  lemma {:induction false} BelowMaxIsSafe(t: Table, run: seq<Event>)
    requires EndsBelowMax(run)
    ensures RunMergeSafe(t, run)
    decreases |run|
  {
    hide After;
    if run != [] {
      forall i | 0 <= i < |run[1..]| ensures run[1..][i] == run[i + 1] {}
      BelowMaxIsSafe(After(t, run[0]), run[1..]);
    }
  }

  /** What is held at the end of such a run is what its events say. */
  lemma EveryRunBelowMax(run: seq<Event>, inode: nat, o: Owner, b: int, k: Kind)
    requires Possible(EMPTY, run) && EndsBelowMax(run)
    ensures HeldIn(Final(EMPTY, run), inode, o, b, k) <==> Replay(false, run, inode, o, b, k)
  {
    hide Possible, RunLeavesNone, RunMergeSafe, EndsBelowMax, Final, Replay;
    BelowMaxIsSafe(EMPTY, run);
    SafeRunLeavesNone(EMPTY, run);
    EveryRunFromEmpty(run, inode, o, b, k);
  }

  lemma {:induction false} AlwaysToTheEnd(t: Table, run: seq<Event>)
    requires AlwaysCanonical(t, run)
    ensures AllCanonical(Final(t, run))
    decreases |run|
  {
    hide After;
    if run != [] { AlwaysToTheEnd(After(t, run[0]), run[1..]); }
  }

  /** After such a run a lock is refused exactly if with it a byte would be locked against another lock. */
  lemma RefusedBelowMax(run: seq<Event>, inode: nat, r: Request, id: nat)
    requires Possible(EMPTY, run) && EndsBelowMax(run) && ValidRequest(r)
    ensures var list := Locks(Final(EMPTY, run), inode);
            FirstConflict(list, r) < |list| <==> r.kind != Unlock && !Exclusive(list + [AsLock(r, id)])
  {
    hide Possible, EndsBelowMax, RunMergeSafe, AlwaysCanonical, Final, Exclusive, Contiguous, Sorted;
    var t := Final(EMPTY, run);
    BelowMaxIsSafe(EMPTY, run);
    EveryRunIsCanonical(EMPTY, run);
    AlwaysToTheEnd(EMPTY, run);
    LocksCanonical(t, inode);
    EmptyInv();
    RunInv(EMPTY, run);
    LocksInv(t, inode);
    RefusedIff(Locks(t, inode), r, id);
    WellFormedStraddlesNone(Locks(t, inode), r);
  }

  // ---- a run after which a request costs bytes outside its range

  /** One owner's requests are granted as they come. */
  lemma OwnGrant(t: Table, list: seq<Lock>, r: Request)
    requires t.flock == map[0 := list] || (t == EMPTY && list == [])
    requires t.blocked == [] && OwnedBy(list, r.owner) && ValidRequest(r)
    ensures Enabled(t, Grant(0, r))
    ensures After(t, Grant(0, r)) ==
            Table(map[0 := Apply(list, r, t.nextId, t.nextId + 1).list], [], t.nextId + 2)
  {
    hide Apply;
    assert Locks(t, 0) == list;
  }

  /** Read locks on bytes 0-10, write locks on 20-30, then read locks from 5 on: the write lock stays behind them. */
  lemma ThreeLocks(o: Owner)
    ensures var low, mid := Lock(0, o, Read, 0, 10), Lock(2, o, Write, 20, 30);
            && Apply([], Request(o, Read, 0, 10), 0, 1).list == [low]
            && Apply([low], Request(o, Write, 20, 30), 2, 3).list == [low, mid]
            && Apply([low, mid], Request(o, Read, 5, OFFSET_MAX), 4, 5).list == [Lock(4, o, Read, 5, OFFSET_MAX), low, mid]
  {
    var low, mid := Lock(0, o, Read, 0, 10), Lock(2, o, Write, 20, 30);
    var e0 := Start([], Request(o, Read, 0, 10));
    assert Walk(e0) == e0;
    var e1 := Start([low], Request(o, Write, 20, 30));
    assert e1.done == [] && e1.todo == [low];
    assert Next(e1).done == [low] && Next(e1).todo == [] && OneRound(e1) == Go(Next(e1));
    assert Walk(e1) == Next(e1);
    var e2 := Start([low, mid], Request(o, Read, 5, OFFSET_MAX));
    assert e2.done == [] && e2.todo == [low, mid];
    assert Walk(e2) == e2;
  }

  /** Then the bytes from 40 on are unlocked. */
  lemma ThenUnlocked(o: Owner)
    ensures var low, mid := Lock(0, o, Read, 0, 10), Lock(2, o, Write, 20, 30);
            Apply([Lock(4, o, Read, 5, OFFSET_MAX), low, mid], Request(o, Unlock, 40, OFFSET_MAX), 6, 7).list
            == [Lock(4, o, Read, 5, 39), low, mid]
  {
    var high, low, mid := Lock(4, o, Read, 5, OFFSET_MAX), Lock(0, o, Read, 0, 10), Lock(2, o, Write, 20, 30);
    var e := Start([high, low, mid], Request(o, Unlock, 40, OFFSET_MAX));
    assert e.done == [] && e.todo == [high, low, mid];
    var e1 := OneRound(e).e;
    assert OneRound(e).Go? && e1 == e.(done := [high], todo := [low, mid], added := true, left := Passed(0));
    var e2 := Next(e1);
    assert e2.done == [high, low] && e2.todo == [mid] && OneRound(e1) == Go(e2);
    var e3 := Next(e2);
    assert e3.done == [high, low, mid] && e3.todo == [] && OneRound(e2) == Go(e3);
    assert Walk(e3) == e3 && Walk(e2) == e3 && Walk(e1) == e3;
  }

  /** Read-locking bytes 3-4 then merges all read locks and drops the write lock they enclose. */
  lemma ThenDropped(o: Owner)
    ensures var low, mid := Lock(0, o, Read, 0, 10), Lock(2, o, Write, 20, 30);
            Apply([Lock(4, o, Read, 5, 39), low, mid], Request(o, Read, 3, 4), 8, 9).list == [Lock(4, o, Read, 0, 39)]
  {
    var high, low, mid := Lock(4, o, Read, 5, 39), Lock(0, o, Read, 0, 10), Lock(2, o, Write, 20, 30);
    var e := Start([high, low, mid], Request(o, Read, 3, 4));
    assert e.done == [] && e.todo == [high, low, mid];
    var e1 := Merge(e);
    assert e1.done == [high.(start := 3)] && e1.todo == [low, mid] && OneRound(e) == Go(e1);
    var e2 := Merge(e1);
    assert e2.done == [high.(start := 0)] && e2.todo == [mid] && OneRound(e1) == Go(e2);
    var e3 := Drop(e2);
    assert e3.done == e2.done && e3.todo == [] && OneRound(e2) == Go(e3);
    assert Walk(e3) == e3 && Walk(e2) == e3 && Walk(e1) == e3;
  }

  lemma RunNil(t: Table)
    ensures Final(t, []) == t && Possible(t, [])
  {
  }

  lemma RunCons(t: Table, e: Event, rest: seq<Event>)
    ensures Final(t, [e] + rest) == Final(After(t, e), rest)
    ensures Possible(t, [e] + rest) <==> Enabled(t, e) && Possible(After(t, e), rest)
  {
    assert ([e] + rest)[1..] == rest;
  }

  /** So a request may cost its caller bytes of the other type outside its range, from the empty table on. */
  lemma OverlapLosesBytes(o: Owner)
    ensures var run := [Grant(0, Request(o, Read, 0, 10)), Grant(0, Request(o, Write, 20, 30)),
                        Grant(0, Request(o, Read, 5, OFFSET_MAX)), Grant(0, Request(o, Unlock, 40, OFFSET_MAX))];
            var t, last := Final(EMPTY, run), Grant(0, Request(o, Read, 3, 4));
            && Possible(EMPTY, run) && Enabled(t, last)
            && HeldIn(t, 0, o, 25, Write) && !HeldIn(After(t, last), 0, o, 25, Write)
  {
    hide Enabled, After, Apply, Final, Possible;
    var low, mid := Lock(0, o, Read, 0, 10), Lock(2, o, Write, 20, 30);
    var high, cut := Lock(4, o, Read, 5, OFFSET_MAX), Lock(4, o, Read, 5, 39);
    var g1, g2 := Grant(0, Request(o, Read, 0, 10)), Grant(0, Request(o, Write, 20, 30));
    var g3, g4 := Grant(0, Request(o, Read, 5, OFFSET_MAX)), Grant(0, Request(o, Unlock, 40, OFFSET_MAX));
    var t1, t2 := Table(map[0 := [low]], [], 2), Table(map[0 := [low, mid]], [], 4);
    var t3, t4 := Table(map[0 := [high, low, mid]], [], 6), Table(map[0 := [cut, low, mid]], [], 8);
    ThreeLocks(o);
    ThenUnlocked(o);
    ThenDropped(o);
    OwnGrant(EMPTY, [], g1.req);
    OwnGrant(t1, [low], g2.req);
    OwnGrant(t2, [low, mid], g3.req);
    OwnGrant(t3, [high, low, mid], g4.req);
    OwnGrant(t4, [cut, low, mid], Request(o, Read, 3, 4));
    assert Final(t4, []) == t4 && Possible(t4, []) by { RunNil(t4); }
    RunCons(t3, g4, []);
    RunCons(t2, g3, [g4]);
    RunCons(t1, g2, [g3, g4]);
    RunCons(EMPTY, g1, [g2, g3, g4]);
    assert [g1] + [g2, g3, g4] == [g1, g2, g3, g4] && [g2] + [g3, g4] == [g2, g3, g4] && [g3] + [g4] == [g3, g4];
    assert [g4] + [] == [g4];
    assert Is(Locks(t4, 0)[2], o, 25, Write);
  }

  // ---- a run after which a lock that covers no byte refuses a request

  /** Read locks on bytes 1-10 and from 5 on, which are not merged, then write locks on bytes 2-7. */
  lemma ThreeOverlap(o: Owner)
    ensures var low, w := Lock(0, o, Read, 1, 10), Lock(4, o, Write, 2, 7);
            && Apply([], Request(o, Read, 1, 10), 0, 1).list == [low]
            && Apply([low], Request(o, Read, 5, OFFSET_MAX), 2, 3).list == [Lock(2, o, Read, 5, OFFSET_MAX), low]
            && Apply([Lock(2, o, Read, 5, OFFSET_MAX), low], Request(o, Write, 2, 7), 4, 5).list
               == [w, Lock(2, o, Read, 8, OFFSET_MAX), low]
  {
    var low, high := Lock(0, o, Read, 1, 10), Lock(2, o, Read, 5, OFFSET_MAX);
    var e0 := Start([], Request(o, Read, 1, 10));
    assert Walk(e0) == e0;
    var e1 := Start([low], Request(o, Read, 5, OFFSET_MAX));
    assert e1.done == [] && e1.todo == [low];
    assert Walk(e1) == e1;
    var e2 := Start([high, low], Request(o, Write, 2, 7));
    assert e2.done == [] && e2.todo == [high, low];
    assert Walk(e2) == e2.(right := true);
  }

  /** Then the bytes from 40 on are unlocked. */
  lemma ThenShortened(o: Owner)
    ensures var low, w := Lock(0, o, Read, 1, 10), Lock(4, o, Write, 2, 7);
            Apply([w, Lock(2, o, Read, 8, OFFSET_MAX), low], Request(o, Unlock, 40, OFFSET_MAX), 6, 7).list
            == [w, Lock(2, o, Read, 8, 39), low]
  {
    var high, low, w := Lock(2, o, Read, 8, OFFSET_MAX), Lock(0, o, Read, 1, 10), Lock(4, o, Write, 2, 7);
    var e := Start([w, high, low], Request(o, Unlock, 40, OFFSET_MAX));
    assert e.done == [] && e.todo == [w, high, low];
    var e1 := Next(e);
    assert e1.done == [w] && e1.todo == [high, low] && OneRound(e) == Go(e1);
    var e2 := OneRound(e1).e;
    assert OneRound(e1).Go? && e2 == e1.(done := [w, high], todo := [low], added := true, left := Passed(1));
    var e3 := Next(e2);
    assert e3.done == [w, high, low] && e3.todo == [] && OneRound(e2) == Go(e3);
    assert Walk(e3) == e3 && Walk(e2) == e3 && Walk(e1) == e3;
  }

  /** Read-locking bytes 5-12 then shortens the write lock on 2-7 to end before byte 1. */
  lemma ThenEmpty(o: Owner)
    ensures var low, w := Lock(0, o, Read, 1, 10), Lock(4, o, Write, 2, 7);
            Apply([w, Lock(2, o, Read, 8, 39), low], Request(o, Read, 5, 12), 8, 9).list
            == [Lock(4, o, Write, 2, 0), Lock(2, o, Read, 1, 39)]
  {
    var high, low, w := Lock(2, o, Read, 8, 39), Lock(0, o, Read, 1, 10), Lock(4, o, Write, 2, 7);
    var e := Start([w, high, low], Request(o, Read, 5, 12));
    assert e.done == [] && e.todo == [w, high, low];
    var e1 := OneRound(e).e;
    assert OneRound(e).Go? && e1 == e.(done := [w], todo := [high, low], left := Passed(0));
    var e2 := Merge(e1);
    assert e2.done == [w, high.(start := 5)] && e2.todo == [low] && OneRound(e1) == Go(e2);
    var e3 := Merge(e2);
    assert e3.done == [w, high.(start := 1)] && e3.todo == [] && OneRound(e2) == Go(e3);
    assert Walk(e3) == e3 && Walk(e2) == e3 && Walk(e1) == e3;
  }

  /** So a reader may be refused, from the empty table on, although nobody holds a write lock on any byte. */
  lemma EmptyLockRefuses(o: Owner, reader: Owner)
    requires o != reader
    ensures var run := [Grant(0, Request(o, Read, 1, 10)), Grant(0, Request(o, Read, 5, OFFSET_MAX)),
                        Grant(0, Request(o, Write, 2, 7)), Grant(0, Request(o, Unlock, 40, OFFSET_MAX)),
                        Grant(0, Request(o, Read, 5, 12))];
            var list := Locks(Final(EMPTY, run), 0);
            && Possible(EMPTY, run) && (forall o', b :: !Holds(list, o', b, Write))
            && FirstConflict(list, Request(reader, Read, 0, 5)) < |list|
  {
    hide Enabled, After, Apply, Final, Possible;
    var low, w := Lock(0, o, Read, 1, 10), Lock(4, o, Write, 2, 7);
    var high, cut := Lock(2, o, Read, 5, OFFSET_MAX), Lock(2, o, Read, 8, OFFSET_MAX);
    var g1, g2 := Grant(0, Request(o, Read, 1, 10)), Grant(0, Request(o, Read, 5, OFFSET_MAX));
    var g3, g4 := Grant(0, Request(o, Write, 2, 7)), Grant(0, Request(o, Unlock, 40, OFFSET_MAX));
    var g5, last := Grant(0, Request(o, Read, 5, 12)), [Lock(4, o, Write, 2, 0), Lock(2, o, Read, 1, 39)];
    var t1, t2 := Table(map[0 := [low]], [], 2), Table(map[0 := [high, low]], [], 4);
    var t3, t4 := Table(map[0 := [w, cut, low]], [], 6), Table(map[0 := [w, cut.(end := 39), low]], [], 8);
    var t5 := Table(map[0 := last], [], 10);
    ThreeOverlap(o);
    ThenShortened(o);
    ThenEmpty(o);
    OwnGrant(EMPTY, [], g1.req);
    OwnGrant(t1, [low], g2.req);
    OwnGrant(t2, [high, low], g3.req);
    OwnGrant(t3, [w, cut, low], g4.req);
    OwnGrant(t4, [w, cut.(end := 39), low], g5.req);
    RunNil(t5);
    RunCons(t4, g5, []);
    RunCons(t3, g4, [g5]);
    RunCons(t2, g3, [g4, g5]);
    RunCons(t1, g2, [g3, g4, g5]);
    RunCons(EMPTY, g1, [g2, g3, g4, g5]);
    assert [g5] + [] == [g5] && [g4] + [g5] == [g4, g5] && [g3] + [g4, g5] == [g3, g4, g5];
    assert [g2] + [g3, g4, g5] == [g2, g3, g4, g5] && [g1] + [g2, g3, g4, g5] == [g1, g2, g3, g4, g5];
    assert Locks(t5, 0) == last && Conflict(Request(reader, Read, 0, 5), last[0]);
  }
}
