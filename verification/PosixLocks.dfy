/**
 `fs/locks.c` in its own form: the list of an inode is worked through lock by lock with the variables of the source,
 and stored when the edit is done; the list of sleepers is changed as it goes. Each method is shown to perform one
 event of `LockTable`.
 */
module PosixLocks {
  import opened Basics
  import opened FileLocks
  import opened LockEdit
  import opened LockTable
  import opened LockBlocking

  /** 0, -EAGAIN, -EDEADLK, or gone to sleep in `locks_block_on`. */
  datatype Status = Ok | Again | WouldDeadlock | Sleeping

  // ---- facts about Unblock

  lemma {:induction false} UnblockTwice(blocked: seq<Waiter>, inode: nat, a: set<nat>, b: set<nat>)
    ensures Unblock(Unblock(blocked, inode, a), inode, b) == Unblock(blocked, inode, a + b)
  {
    if blocked != [] {
      UnblockTwice(blocked[1..], inode, a, b);
      var rest := Unblock(blocked[1..], inode, a);
      assert ([blocked[0]] + rest)[1..] == rest;
    }
  }

  lemma {:induction false} UnblockNone(blocked: seq<Waiter>, inode: nat, ids: set<nat>)
    requires forall i :: 0 <= i < |blocked| ==> !(blocked[i].inode == inode && blocked[i].blocker in ids)
    ensures Unblock(blocked, inode, ids) == blocked
  {
    if blocked != [] { UnblockNone(blocked[1..], inode, ids); }
  }

  lemma {:induction false} UnblockOne(blocked: seq<Waiter>, inode: nat, ids: set<nat>, i: nat)
    requires i < |blocked| && blocked[i].inode == inode && blocked[i].blocker in ids
    ensures Unblock(blocked[..i] + blocked[i + 1..], inode, ids) == Unblock(blocked, inode, ids)
  {
    var less := blocked[..i] + blocked[i + 1..];
    if i == 0 {
      assert less == blocked[1..];
    } else {
      UnblockOne(blocked[1..], inode, ids, i - 1);
      assert less[1..] == blocked[1..][..i - 1] + blocked[1..][i..];
    }
  }

  /** The local variables of `posix_lock_file`. */
  datatype Loop = Loop(
    list: seq<Lock>, before: nat, caller: Request, added: bool, at: Caller, left: Left, right: bool)

  /** The variables `v` of the loop stand for the state `f`. */
  predicate Stands(f: Edit, v: Loop) {
    && v.before <= |v.list| && (v.left.Passed? ==> v.left.at < v.before) && (v.right ==> v.before < |v.list|)
    && (v.left.AtBefore? ==> v.right)
    && f.done == v.list[..v.before] && f.todo == v.list[v.before..]
    && f.req == v.caller && f.added == v.added && f.left == v.left && f.right == v.right && f.caller == v.at
  }

  class LockManager {
    var flock: map<nat, seq<Lock>>
    var blocked: seq<Waiter>
    var nextId: nat

    ghost function Value(): Table
      reads this
    {
      Table(flock, blocked, nextId)
    }

    constructor ()
      ensures Value() == EMPTY
    {
      flock, blocked, nextId := map[], [], 0;
    }

    /** `locks_wake_up_blocks`: take the sleepers of one lock off the lists, one after the other. */
    method WakeUpBlocks(inode: nat, id: nat)
      modifies this`blocked
      ensures blocked == Unblock(old(blocked), inode, {id})
    {
      var i := 0;
      while i < |blocked|
        invariant 0 <= i <= |blocked|
        invariant forall k :: 0 <= k < i ==> !(blocked[k].inode == inode && blocked[k].blocker == id)
        invariant Unblock(blocked, inode, {id}) == Unblock(old(blocked), inode, {id})
        decreases |blocked| - i
      {
        if blocked[i].inode == inode && blocked[i].blocker == id {
          UnblockOne(blocked, inode, {id}, i);
          blocked := blocked[..i] + blocked[i + 1..];
        } else {
          i := i + 1;
        }
      }
      UnblockNone(blocked, inode, {id});
    }

    /**
     `posix_locks_deadlock`: follow the recorded blockers from the owner of the blocking lock. The
     loop ends because every chain of blockers does.
     */
    method PosixLocksDeadlock(caller: Owner, blocker: Owner) returns (deadlock: bool)
      requires WaitersInv(Value()) && NoDeadlock(Value())
      ensures deadlock <==> Deadlock(Value(), blocker, caller)
      ensures TableInv(Value()) ==> (deadlock <==> exists ws :: WaitPath(Value(), blocker, ws, caller))
    {
      hide TableInv, WaitPath;
      ghost var t := Value();
      if TableInv(t) { DeadlockIff(t, blocker, caller); }
      var o := blocker;
      assert Ends(t, o);
      ghost var n: nat :| EndsWithin(t, o, n);
      while caller != o
        invariant EndsWithin(t, o, n)
        invariant Deadlock(t, blocker, caller) <==> Deadlock(t, o, caller)
        decreases n
      {
        var i := 0;
        while i < |blocked| && blocked[i].req.owner != o
          invariant 0 <= i <= |blocked|
          invariant FindWaiter(blocked, o) == FindWaiter(blocked[i..], o)
        {
          assert blocked[i..][1..] == blocked[i + 1..];
          i := i + 1;
        }
        if i == |blocked| {
          assert NextOwner(t, o) == None;
          return false;
        }
        assert FindWaiter(blocked, o) == Some(blocked[i]);
        assert HeldBack(blocked[i], Locks(t, blocked[i].inode));
        var list := if blocked[i].inode in flock then flock[blocked[i].inode] else [];
        var fl := Deref(list, blocked[i].blocker).value;
        DeadlockStep(t, o, fl.owner, caller);
        o := fl.owner;
        n := n - 1;
      }
      assert Reaches(t, o, caller, 0);
      return true;
    }

    /** The first loop: pass over the locks of other owners. */
    method SkipOthers(list: seq<Lock>, o: Owner) returns (before: nat)
      ensures before == Skip(list, o)
    {
      before := 0;
      while before < |list| && list[before].owner != o
        invariant 0 <= before <= |list|
        invariant Skip(list, o) == before + Skip(list[before..], o)
      {
        assert list[before..][1..] == list[before + 1..];
        before := before + 1;
      }
    }

    /**
     One round of the loop over the caller's locks, at the lock at `before`. `go` says that the loop
     continues; `f` and `f'` are the states of `LockEdit` before and after the round.
     */
    method Round(inode: nat, v: Loop, ghost f: Edit, ghost blocked0: seq<Waiter>)
      returns (v': Loop, go: bool, ghost f': Edit)
      requires Stands(f, v) && f.todo != [] && Running(f)
      requires blocked == Unblock(blocked0, inode, f.woken)
      modifies this`blocked
      ensures OneRound(f) == (if go then Go(f') else Break(f')) && Stands(f', v')
      ensures go ==> Running(f') && |v'.list| - v'.before == |v.list| - v.before - 1
      ensures blocked == Unblock(blocked0, inode, f'.woken)
    {
      var Loop(list, before, caller, added, at, left, right) := v;
      var fl := list[before];
      ghost var woken, rest := f.woken, f.todo[1..];
      assert rest == list[before + 1..] && list[..before + 1] == f.done + [fl];
      go := true;
      if caller.kind == fl.kind {
        if fl.end < caller.start - 1 {
          before := before + 1;
        } else if fl.start > Succ(caller.end) {
          go := false;
        } else {
          caller := caller.(start := Min(fl.start, caller.start), end := Max(fl.end, caller.end));
          if added {
            list := SetRange(list[..before], at, caller.start, caller.end) + list[before + 1..];
            woken := DeleteBlocks(inode, fl.id, blocked0, woken);
          } else {
            list := list[before := fl.(start := caller.start, end := caller.end)];
            at, added := Node(before), true;
            before := before + 1;
          }
        }
      } else if fl.end < caller.start {
        before := before + 1;
      } else if fl.start > caller.end {
        go := false;
      } else {
        if caller.kind == Unlock { added := true; }
        if fl.end > caller.end {
          if fl.start < caller.start { left := AtBefore; }
          right, go := true, false;
        } else if fl.start < caller.start {
          left := Passed(before);
          before := before + 1;
        } else {
          woken := DeleteBlocks(inode, fl.id, blocked0, woken);
          if added {
            list := list[..before] + list[before + 1..];
          } else {
            list := list[before := fl.(kind := caller.kind, start := caller.start, end := caller.end)];
            at, added := Node(before), true;
            before := before + 1;
          }
        }
      }
      v' := Loop(list, before, caller, added, at, left, right);
      f' := Edit(list[..before], list[before..], caller, added, at, left, right, woken);
    }

    /**
     The two loops of `posix_lock_file`: skip the locks of others, then work through the locks of
     the caller. `f` is the state that `Walk` reaches.
     */
    method WalkLocks(inode: nat, r: Request) returns (v: Loop, ghost f: Edit)
      modifies this`blocked
      ensures f == Walk(Start(Locks(Value(), inode), r)) && Stands(f, v)
      ensures blocked == Unblock(old(blocked), inode, f.woken)
    {
      hide OneRound;
      var list := if inode in flock then flock[inode] else [];
      var before := SkipOthers(list, r.owner);
      v, f := Loop(list, before, r, false, Own, NoLeft, false), Start(list, r);
      ghost var final := Walk(f);
      UnblockNone(blocked, inode, {});
      var go := true;
      while go && v.before < |v.list| && v.list[v.before].owner == v.caller.owner
        invariant Stands(f, v) && (go ==> Running(f))
        invariant blocked == Unblock(old(blocked), inode, f.woken)
        invariant (if go then Walk(f) else f) == final
        decreases go, |v.list| - v.before
      {
        v, go, f := Round(inode, v, f, old(blocked));
      }
    }

    /** Wake the sleepers of one more lock. */
    method DeleteBlocks(inode: nat, id: nat, ghost blocked0: seq<Waiter>, ghost woken: set<nat>)
      returns (ghost woken': set<nat>)
      requires blocked == Unblock(blocked0, inode, woken)
      modifies this`blocked
      ensures woken' == woken + {id} && blocked == Unblock(blocked0, inode, woken')
    {
      UnblockTwice(blocked0, inode, woken, {id});
      WakeUpBlocks(inode, id);
      woken' := woken + {id};
    }

    /** Insert the new lock, and shorten or split the locks at its ends. */
    method FinishList(v: Loop, newFl: nat, newFl2: nat, ghost f: Edit) returns (list: seq<Lock>)
      requires Stands(f, v)
      ensures list == Finish(f, newFl, newFl2).list
    {
      hide TrimLeft;
      var caller := v.caller;
      if !v.added && caller.kind == Unlock { return v.list; }
      TrimIs(f, v);
      var done, rest := v.list[..v.before], v.list[v.before..];
      if v.left.Passed? {
        done := done[v.left.at := done[v.left.at].(end := caller.start - 1)];
      }
      var ins := if v.added then [] else [Lock(newFl, caller.owner, caller.kind, caller.start, caller.end)];
      if v.right {
        var split := if v.left.AtBefore? then [rest[0].(id := newFl2, end := caller.start - 1)] else [];
        list := done + split + ins + [rest[0].(start := Succ(caller.end))] + rest[1..];
      } else {
        list := done + ins + rest;
      }
    }

    /** Wake the sleepers of the locks that `FinishList` shortens; a lock split off has none yet. */
    method WakeTrimmed(inode: nat, v: Loop, newFl: nat, newFl2: nat, ghost f: Edit, ghost blocked0: seq<Waiter>)
      requires Stands(f, v)
      requires blocked == Unblock(blocked0, inode, f.woken)
      modifies this`blocked
      ensures blocked == Unblock(blocked0, inode, Finish(f, newFl, newFl2).woken)
    {
      if !v.added && v.caller.kind == Unlock { return; }
      ghost var woken := f.woken;
      if v.right {
        woken := DeleteBlocks(inode, v.list[v.before].id, blocked0, woken);
      }
      if v.left.Passed? {
        woken := DeleteBlocks(inode, v.list[v.left.at].id, blocked0, woken);
      }
      assert woken == Finish(f, newFl, newFl2).woken;
    }

    /** The part of `posix_lock_file` that edits the list, once nothing stands in the way. */
    method EditList(inode: nat, r: Request)
      modifies this
      ensures Value() == AfterGrant(old(Value()), inode, r)
    {
      hide Walk, Finish;
      var v, f := WalkLocks(inode, r);
      WakeTrimmed(inode, v, nextId, nextId + 1, f, old(blocked));
      var list := FinishList(v, nextId, nextId + 1, f);
      flock, nextId := flock[inode := list], nextId + 2;
    }

    /**
     `posix_lock_file` from its entry, or from waking up, until it returns or goes to sleep. Every
     error return leaves the locks and the sleepers as they were.
     */
    method PosixLockFile(inode: nat, r: Request, wait: bool) returns (status: Status)
      requires TableInv(Value()) && ValidRequest(r) && !Asleep(Value(), r.owner)
      modifies this
      ensures var t, list := old(Value()), old(Locks(Value(), inode));
              var k := FirstConflict(list, r);
              if k == |list| then status == Ok && Value() == AfterGrant(t, inode, r)
              else if !wait then status == Again && Value() == t
              else if Deadlock(t, list[k].owner, r.owner) then status == WouldDeadlock && Value() == t
              else status == Sleeping && Value() == AfterSleep(t, inode, r)
      ensures var t, list := old(Value()), old(Locks(Value(), inode));
              && (status == Ok <==>
                    r.kind == Unlock || (Exclusive(list + [AsLock(r, t.nextId)]) && !AnyStraddled(list, r)))
              && (status == WouldDeadlock ==>
                    exists l, ws :: l in list && Conflict(r, l) && WaitPath(t, l.owner, ws, r.owner))
      ensures status == Sleeping ==>
                blocked != [] && blocked[0].req == r && forall ws :: ws != [] ==> !WaitPath(Value(), r.owner, ws, r.owner)
      ensures TableInv(Value())
    {
      hide Apply, Reaches, EndsWithin, Exclusive, WaitPath, AnyStraddled, NoDeadlock;
      var list := if inode in flock then flock[inode] else [];
      var k := 0;
      while k < |list| && !Conflict(r, list[k])
        invariant 0 <= k <= |list|
        invariant FirstConflict(list, r) == k + FirstConflict(list[k..], r)
      {
        assert list[k..][1..] == list[k + 1..];
        k := k + 1;
      }
      assert k == FirstConflict(list, r);
      LocksInv(Value(), inode);
      RefusedIff(list, r, nextId);
      if k == |list| {
        StepInv(Value(), Grant(inode, r));
        EditList(inode, r);
        return Ok;
      }
      if !wait { return Again; }
      var deadlock := PosixLocksDeadlock(r.owner, list[k].owner);
      if deadlock {
        assert list[k] in list;
        return WouldDeadlock;
      }
      StepInv(Value(), Sleep(inode, r));
      blocked := [Waiter(r, inode, list[k].id)] + blocked;
      forall ws: seq<Waiter> | ws != [] ensures !WaitPath(Value(), r.owner, ws, r.owner) {
        NoWaitCycle(Value(), r.owner, ws);
      }
      return Sleeping;
    }

    /** `locks_delete_block` when the sleeper runs again, woken or interrupted. */
    method LocksDeleteBlock(o: Owner)
      requires TableInv(Value())
      modifies this`blocked
      ensures Value() == After(old(Value()), Awake(o)) && TableInv(Value())
    {
      hide TableInv;
      StepInv(Value(), Awake(o));
      var i, rest := |blocked|, [];
      while i > 0
        invariant 0 <= i <= |blocked| && rest == UnblockOwner(blocked[i..], o)
      {
        i := i - 1;
        assert blocked[i..] == [blocked[i]] + blocked[i + 1..];
        if blocked[i].req.owner != o { rest := [blocked[i]] + rest; }
      }
      assert blocked[0..] == blocked;
      blocked := rest;
    }

    /** `locks_remove_posix`: delete the locks of `files` one by one, starting over after each. */
    method LocksRemovePosix(inode: nat, files: nat)
      requires TableInv(Value())
      modifies this
      ensures Value() == After(old(Value()), Close(inode, files)) && TableInv(Value())
    {
      hide TableInv;
      StepInv(Value(), Close(inode, files));
      var list := if inode in flock then flock[inode] else [];
      ghost var list0, woken: set<nat> := list, {};
      UnblockNone(blocked, inode, {});
      var before := 0;
      while before < |list|
        invariant 0 <= before <= |list|
        invariant forall k :: 0 <= k < before ==> list[k].owner.files != files
        invariant Without(list, files) == Without(list0, files)
        invariant FilesIds(list, files) + woken == FilesIds(list0, files)
        invariant blocked == Unblock(old(blocked), inode, woken) && nextId == old(nextId) && flock == old(flock)
        decreases |list|, |list| - before
      {
        if list[before].owner.files == files {
          WithoutOne(list, files, before);
          woken := DeleteBlocks(inode, list[before].id, old(blocked), woken);
          list := list[..before] + list[before + 1..];
          before := 0;
        } else {
          before := before + 1;
        }
      }
      WithoutNone(list, files);
      assert FilesIds(list, files) == {};
      flock := flock[inode := list];
    }

    /** `posix_test_lock` (F_GETLK): reports a lock exactly when F_SETLK would fail. */
    method PosixTestLock(inode: nat, r: Request) returns (found: Option<Lock>)
      requires r.kind != Unlock && TableInv(Value())
      ensures var list := Locks(Value(), inode);
              var k := FirstConflict(list, r);
              found == if k < |list| then Some(list[k]) else None
      ensures var list := Locks(Value(), inode);
              ValidRequest(r) ==>
                && (found == None <==> Exclusive(list + [AsLock(r, nextId)]) && !AnyStraddled(list, r))
                && (found.Some? ==> found.value in list && (Clash(found.value, r) || Straddles(r, found.value)))
    {
      hide TableInv, Exclusive, AnyStraddled, Clash, Conflict, FirstConflict;
      var list := if inode in flock then flock[inode] else [];
      assert AllProper(list) && Exclusive(list) by { LocksInv(Value(), inode); }
      if ValidRequest(r) { RefusedIff(list, r, nextId); }
      var i := 0;
      while i < |list|
        invariant 0 <= i <= |list| && forall j :: 0 <= j < i ==> !Conflict(r, list[j])
      {
        var cfl := list[i];
        assert Proper(cfl);
        RolesExchanged(r, cfl);
        // The roles are exchanged: would the request block the lock?
        if Conflict(Request(cfl.owner, cfl.kind, cfl.start, cfl.end), Lock(0, r.owner, r.kind, r.start, r.end)) {
          if ValidRequest(r) { ConflictIff(r, cfl); }
          return Some(cfl);
        }
        i := i + 1;
      }
      return None;
    }
  }

  lemma TrimIs(f: Edit, v: Loop)
    requires Stands(f, v)
    ensures TrimLeft(f) == if v.left.Passed? then f.done[v.left.at := f.done[v.left.at].(end := v.caller.start - 1)] else f.done
  {
  }

  /** A request for a lock is blocked by a lock exactly if the lock would be blocked by it. */
  lemma RolesExchanged(r: Request, l: Lock)
    requires r.kind != Unlock && Proper(l)
    ensures Conflict(Request(l.owner, l.kind, l.start, l.end), Lock(0, r.owner, r.kind, r.start, r.end)) <==> Conflict(r, l)
  {
  }

  lemma {:induction false} WithoutOne(list: seq<Lock>, files: nat, i: nat)
    requires i < |list| && list[i].owner.files == files
    ensures Without(list[..i] + list[i + 1..], files) == Without(list, files)
    ensures FilesIds(list[..i] + list[i + 1..], files) + {list[i].id} == FilesIds(list, files)
  {
    var less := list[..i] + list[i + 1..];
    assert forall l :: l in list <==> l in less || l == list[i];
    if i == 0 {
      assert less == list[1..];
    } else {
      WithoutOne(list[1..], files, i - 1);
      assert less[1..] == list[1..][..i - 1] + list[1..][i..];
    }
  }

  lemma {:induction false} WithoutNone(list: seq<Lock>, files: nat)
    requires forall k :: 0 <= k < |list| ==> list[k].owner.files != files
    ensures Without(list, files) == list
  {
    if list != [] { WithoutNone(list[1..], files); }
  }

  lemma DeadlockStep(t: Table, o: Owner, o': Owner, caller: Owner)
    requires NextOwner(t, o) == Some(o') && o != caller
    ensures Deadlock(t, o, caller) <==> Deadlock(t, o', caller)
  {
    if n: nat :| Reaches(t, o, caller, n) { assert Reaches(t, o', caller, n - 1); }
    if n: nat :| Reaches(t, o', caller, n) { assert Reaches(t, o, caller, n + 1); }
  }
}
