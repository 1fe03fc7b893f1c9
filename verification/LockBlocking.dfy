/**
 When a request is refused, and when waiting is a deadlock, said of bytes, locks and sleepers: what the scan of the list
 and the walk along the blocked list stand for.
 */
module LockBlocking {
  import opened Basics
  import opened FileLocks
  import opened LockEdit
  import opened LockWakeups
  import opened LockWrap
  import opened LockTable

  // ---- refusal

  /** The lock that the caller asks for. */
  function AsLock(r: Request, id: nat): Lock { Lock(id, r.owner, r.kind, r.start, r.end) }

  /** Two owners, not both readers, on one byte. */
  ghost predicate Clash(l: Lock, r: Request) {
    l.owner != r.owner && (l.kind == Write || r.kind == Write) && exists b :: Covers(l, b) && r.start <= b <= r.end
  }

  /** A lock of another owner, shortened beyond its start, that covers no byte and yet lies within the request. */
  predicate Straddles(r: Request, l: Lock) {
    && l.owner != r.owner && (l.kind == Write || r.kind == Write)
    && r.start <= l.end < l.start <= r.end
  }

  predicate AnyStraddled(list: seq<Lock>, r: Request) {
    exists i :: 0 <= i < |list| && Straddles(r, list[i])
  }

  lemma ConflictIff(r: Request, l: Lock)
    requires ValidRequest(r) && Proper(l)
    ensures Conflict(r, l) <==> r.kind != Unlock && (Clash(l, r) || Straddles(r, l))
  {
    if Conflict(r, l) && l.start <= l.end {
      var b := Max(l.start, r.start);
      assert Covers(l, b) && r.start <= b <= r.end;
    }
  }

  /** Adding a lock breaks the exclusion exactly if it clashes with one that is there. */
  lemma ExclusiveSnoc(list: seq<Lock>, r: Request, id: nat)
    requires AllProper(list) && Exclusive(list) && r.kind != Unlock
    ensures Exclusive(list + [AsLock(r, id)]) <==> forall i :: 0 <= i < |list| ==> !Clash(list[i], r)
  {
    var n, s := |list|, list + [AsLock(r, id)];
    assert s[n] == AsLock(r, id) && forall i :: 0 <= i < n ==> s[i] == list[i] && Proper(list[i]);
    if Exclusive(s) {
      forall i | 0 <= i < n ensures !Clash(list[i], r) {
        if b :| list[i].owner != r.owner && Covers(list[i], b) && r.start <= b <= r.end {
          assert Covers(s[i], b) && Covers(s[n], b);
        }
      }
    }
    if forall i :: 0 <= i < n ==> !Clash(list[i], r) {
      forall i, j, b | 0 <= i <= n && 0 <= j <= n && s[i].owner != s[j].owner && Covers(s[i], b) && Covers(s[j], b)
        ensures s[i].kind == Read
      {
        if i == n { assert !Clash(list[j], r); } else if j == n { assert !Clash(list[i], r); }
      }
    }
  }

  /**
   Unlocking is never refused. A lock is refused exactly if with it a byte would be locked against another lock, or if a
   lock that covers no byte lies within it.
   */
  lemma RefusedIff(list: seq<Lock>, r: Request, id: nat)
    requires AllProper(list) && Exclusive(list) && ValidRequest(r)
    ensures FirstConflict(list, r) < |list| <==>
            r.kind != Unlock && (!Exclusive(list + [AsLock(r, id)]) || AnyStraddled(list, r))
  {
    hide Exclusive, Clash, Conflict;
    forall i | 0 <= i < |list|
      ensures Conflict(r, list[i]) <==> r.kind != Unlock && (Clash(list[i], r) || Straddles(r, list[i]))
    {
      assert Proper(list[i]);
      ConflictIff(r, list[i]);
    }
    if r.kind != Unlock { ExclusiveSnoc(list, r, id); }
    if FirstConflict(list, r) == |list| {
      forall i | 0 <= i < |list| ensures !Conflict(r, list[i]) {}
    }
  }

  /** Where every lock covers a byte, nothing but exclusion refuses a request. */
  lemma WellFormedStraddlesNone(list: seq<Lock>, r: Request)
    requires AllWellFormed(list)
    ensures !AnyStraddled(list, r)
  {
  }

  // ---- deadlock

  /** Sleeper `w` waits for a lock of owner `o`. */
  predicate WaitsFor(t: Table, w: Waiter, o: Owner) {
    w in t.blocked && exists l :: l in Locks(t, w.inode) && l.id == w.blocker && l.owner == o
  }

  /** The owner of the sleeper after `i`, or at the end `target`. */
  function NextOf(ws: seq<Waiter>, i: nat, target: Owner): Owner {
    if i + 1 < |ws| then ws[i + 1].req.owner else target
  }

  /** Sleepers, the first of them `o`, each waiting for a lock of the next one, and the last for one of `target`. */
  predicate WaitPath(t: Table, o: Owner, ws: seq<Waiter>, target: Owner) {
    && o == (if ws == [] then target else ws[0].req.owner)
    && forall i :: 0 <= i < |ws| ==> WaitsFor(t, ws[i], NextOf(ws, i, target))
  }

  /** Every sleeper is an edge: the owner its blocking lock belongs to. */
  lemma EverySleeperWaits(t: Table, w: Waiter)
    requires WaitersInv(t) && w in t.blocked
    ensures exists l :: l in Locks(t, w.inode) && l.id == w.blocker && NextOwner(t, w.req.owner) == Some(l.owner)
  {
    assert HeldBack(w, Locks(t, w.inode));
    FindWaiterIs(t.blocked, w);
    var k := DerefIndex(Locks(t, w.inode), w.blocker);
    assert Locks(t, w.inode)[k] in Locks(t, w.inode);
  }

  /** The walk steps from `o` to `o'` exactly if `o` sleeps and waits for a lock of `o'`. */
  lemma NextIff(t: Table, o: Owner, o': Owner)
    requires TableInv(t)
    ensures NextOwner(t, o) == Some(o') <==> exists w :: w in t.blocked && w.req.owner == o && WaitsFor(t, w, o')
  {
    hide NoDeadlock, Exclusive;
    FindWaiterIn(t.blocked, o);
    if NextOwner(t, o) == Some(o') {
      var w := FindWaiter(t.blocked, o).value;
      EverySleeperWaits(t, w);
      assert WaitsFor(t, w, o');
    }
    if w :| w in t.blocked && w.req.owner == o && WaitsFor(t, w, o') {
      FindWaiterIs(t.blocked, w);
      LocksInv(t, w.inode);
      var list := Locks(t, w.inode);
      var l :| l in list && l.id == w.blocker && l.owner == o';
      var k :| 0 <= k < |list| && list[k] == l;
      DerefAt(list, k);
    }
  }

  lemma {:induction false} PathReaches(t: Table, o: Owner, ws: seq<Waiter>, target: Owner)
    requires TableInv(t) && WaitPath(t, o, ws, target)
    ensures Reaches(t, o, target, |ws|)
    ensures ws != [] ==> NextOwner(t, o).Some? && Reaches(t, NextOwner(t, o).value, target, |ws| - 1)
    decreases |ws|
  {
    hide TableInv, WaitsFor;
    if ws != [] {
      var o', rest := NextOf(ws, 0, target), ws[1..];
      assert WaitsFor(t, ws[0], o');
      assert ws[0] in t.blocked by { SleeperIn(t, ws[0], o'); }
      NextIff(t, o, o');
      forall i | 0 <= i < |rest| ensures WaitsFor(t, rest[i], NextOf(rest, i, target)) {
        assert WaitsFor(t, ws[i + 1], NextOf(ws, i + 1, target));
      }
      PathReaches(t, o', rest, target);
    }
  }

  lemma SleeperIn(t: Table, w: Waiter, o: Owner)
    requires WaitsFor(t, w, o)
    ensures w in t.blocked
  {
  }

  lemma {:induction false} ReachesPath(t: Table, o: Owner, target: Owner, n: nat) returns (ws: seq<Waiter>)
    requires TableInv(t) && Reaches(t, o, target, n)
    ensures WaitPath(t, o, ws, target)
    decreases n
  {
    hide TableInv, WaitsFor;
    if o == target {
      ws := [];
    } else {
      var o' := NextOwner(t, o).value;
      NextIff(t, o, o');
      var w :| w in t.blocked && w.req.owner == o && WaitsFor(t, w, o');
      var rest := ReachesPath(t, o', target, n - 1);
      ws := [w] + rest;
      forall i | 0 <= i < |ws| ensures WaitsFor(t, ws[i], NextOf(ws, i, target)) {
        if i > 0 { assert WaitsFor(t, rest[i - 1], NextOf(rest, i - 1, target)); }
      }
    }
  }

  /** The walk reports a deadlock exactly if sleepers lead from the owner of the blocking lock back to the caller. */
  lemma DeadlockIff(t: Table, blocker: Owner, caller: Owner)
    requires TableInv(t)
    ensures Deadlock(t, blocker, caller) <==> exists ws :: WaitPath(t, blocker, ws, caller)
  {
    hide TableInv, WaitPath, Reaches;
    if n: nat :| Reaches(t, blocker, caller, n) {
      var ws := ReachesPath(t, blocker, caller, n);
    }
    if ws :| WaitPath(t, blocker, ws, caller) { PathReaches(t, blocker, ws, caller); }
  }

  /** No sleepers wait for each other in a circle. */
  lemma NoWaitCycle(t: Table, o: Owner, ws: seq<Waiter>)
    requires TableInv(t) && ws != []
    ensures !WaitPath(t, o, ws, o)
  {
    hide WaitPath, WaitersInv, Exclusive;
    if WaitPath(t, o, ws, o) {
      PathReaches(t, o, ws, o);
      var o' := NextOwner(t, o).value;
      assert Ends(t, o');
      var n: nat :| EndsWithin(t, o', n);
      NoCycle(t, o, o', n, |ws| - 1);
    }
  }

  /** In no run from the empty table is there such a circle, nor a sleeper that waits for itself. */
  lemma EveryRunHasNoCycle(run: seq<Event>, o: Owner, ws: seq<Waiter>)
    requires Possible(EMPTY, run) && ws != []
    ensures !WaitPath(Final(EMPTY, run), o, ws, o)
  {
    hide Possible, Final, WaitPath;
    EmptyInv();
    RunInv(EMPTY, run);
    NoWaitCycle(Final(EMPTY, run), o, ws);
  }

  // ---- who is woken

  /** The lock that the sleeper waits for is still there after the event: not gone, shortened or changed in type. */
  ghost predicate BlockerStays(t: Table, e: Event, w: Waiter) {
    exists l :: l in Locks(t, w.inode) && l.id == w.blocker && Survives(l, Locks(After(t, e), w.inode))
  }

  /** The lock of a sleeper, and where it is. */
  lemma BlockerAt(t: Table, w: Waiter) returns (k: nat)
    requires TableInv(t) && w in t.blocked
    ensures var list := Locks(t, w.inode);
            && k < |list| && list[k].id == w.blocker
            && forall l :: l in list && l.id == w.blocker ==> l == list[k]
  {
    hide NoDeadlock, Exclusive;
    assert HeldBack(w, Locks(t, w.inode));
    k := DerefIndex(Locks(t, w.inode), w.blocker);
    LocksInv(t, w.inode);
  }

  /** A grant wakes exactly the sleepers of locks that it takes, shortens or changes in type. */
  lemma GrantWakes(t: Table, inode: nat, r: Request, w: Waiter)
    requires TableInv(t) && Enabled(t, Grant(inode, r)) && w in t.blocked && Canonical(Locks(t, inode))
    ensures w in AfterGrant(t, inode, r).blocked <==> BlockerStays(t, Grant(inode, r), w)
  {
    hide NoDeadlock, Apply, Canonical, Exclusive, Survives;
    var k := BlockerAt(t, w);
    var list := Locks(t, w.inode);
    assert list[k] in list;
    LocksInv(t, inode);
    UnblockFewer(t.blocked, inode, Apply(Locks(t, inode), r, t.nextId, t.nextId + 1).woken);
    if w.inode == inode {
      ApplyWakes(list, r, t.nextId, t.nextId + 1, k);
    } else {
      SurvivesHere(list, k);
    }
  }

  lemma SurvivesHere(list: seq<Lock>, k: nat)
    requires k < |list|
    ensures Survives(list[k], list)
  {
    assert Grown(list[k], list[k]);
  }

  lemma {:induction false} WithoutFrom(list: seq<Lock>, files: nat)
    ensures forall l :: l in Without(list, files) ==> l in list && l.owner.files != files
  {
    if list != [] { WithoutFrom(list[1..], files); }
  }

  /** In the list without the locks of `files`, a lock survives exactly if it is not one of those. */
  lemma WithoutSurvives(list: seq<Lock>, files: nat, k: nat)
    requires UniqueIds(list) && k < |list|
    ensures Survives(list[k], Without(list, files)) <==> list[k].owner.files != files
  {
    hide Without;
    var s := Without(list, files);
    WithoutFrom(list, files);
    if list[k].owner.files != files {
      WithoutKeeps(list, files, k);
      var m :| 0 <= m < |s| && s[m] == list[k];
      assert Grown(list[k], s[m]);
    }
    if m :| 0 <= m < |s| && Grown(list[k], s[m]) {
      assert s[m] in s;
    }
  }

  /** A close wakes exactly the sleepers of the locks that it removes. */
  lemma CloseWakes(t: Table, inode: nat, files: nat, w: Waiter)
    requires TableInv(t) && w in t.blocked
    ensures w in AfterClose(t, inode, files).blocked <==> BlockerStays(t, Close(inode, files), w)
  {
    hide NoDeadlock, Exclusive;
    var k := BlockerAt(t, w);
    var list := Locks(t, w.inode);
    assert list[k] in list;
    LocksInv(t, inode);
    UnblockFewer(t.blocked, inode, FilesIds(Locks(t, inode), files));
    if w.inode == inode {
      WithoutSurvives(list, files, k);
    } else {
      SurvivesHere(list, k);
    }
  }
}
