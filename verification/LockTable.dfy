/**
 The record locks of all inodes together with the requests that are asleep: the events by which
 this state changes, and what holds in every run.
 */
module LockTable {
  import opened Basics
  import opened FileLocks
  import opened LockEdit
  import opened LockWakeups
  import opened LockSafety
  import opened LockWrap

  /** A sleeping request: the inode and the id of the lock it waits for (its `fl_next`). */
  datatype Waiter = Waiter(req: Request, inode: nat, blocker: nat)

  /** `flock` holds the lists `i_flock`; `blocked` is the global `blocked_list`. */
  datatype Table = Table(flock: map<nat, seq<Lock>>, blocked: seq<Waiter>, nextId: nat)

  const EMPTY := Table(map[], [], 0)

  function Locks(t: Table, inode: nat): seq<Lock> {
    if inode in t.flock then t.flock[inode] else []
  }

  /** The lock at address `id`. */
  function Deref(list: seq<Lock>, id: nat): Option<Lock> {
    if list == [] then None
    else if list[0].id == id then Some(list[0])
    else Deref(list[1..], id)
  }

  lemma {:induction false} DerefAt(list: seq<Lock>, k: nat)
    requires UniqueIds(list) && k < |list|
    ensures Deref(list, list[k].id) == Some(list[k])
  {
    if k > 0 { DerefAt(list[1..], k - 1); }
  }

  lemma {:induction false} DerefIndex(list: seq<Lock>, id: nat) returns (k: nat)
    requires Deref(list, id).Some?
    ensures k < |list| && list[k] == Deref(list, id).value && list[k].id == id
  {
    if list[0].id == id {
      k := 0;
    } else {
      k := DerefIndex(list[1..], id);
      k := k + 1;
    }
  }

  // ---- sleeping and waking

  function FindWaiter(blocked: seq<Waiter>, o: Owner): Option<Waiter> {
    if blocked == [] then None
    else if blocked[0].req.owner == o then Some(blocked[0])
    else FindWaiter(blocked[1..], o)
  }

  /** Remove the sleepers of `inode` that wait for one of the locks `ids`. */
  function Unblock(blocked: seq<Waiter>, inode: nat, ids: set<nat>): seq<Waiter> {
    if blocked == [] then []
    else if blocked[0].inode == inode && blocked[0].blocker in ids then Unblock(blocked[1..], inode, ids)
    else [blocked[0]] + Unblock(blocked[1..], inode, ids)
  }

  function UnblockOwner(blocked: seq<Waiter>, o: Owner): seq<Waiter> {
    if blocked == [] then []
    else if blocked[0].req.owner == o then UnblockOwner(blocked[1..], o)
    else [blocked[0]] + UnblockOwner(blocked[1..], o)
  }

  predicate OneEach(blocked: seq<Waiter>) {
    forall i, j :: 0 <= i < j < |blocked| ==> blocked[i].req.owner != blocked[j].req.owner
  }

  /** `small` has sleepers only of `big`, and no two of one owner. */
  predicate FewerWaiters(small: seq<Waiter>, big: seq<Waiter>) {
    OneEach(small) && forall w :: w in small ==> w in big
  }

  lemma {:induction false} UnblockFewer(blocked: seq<Waiter>, inode: nat, ids: set<nat>)
    requires OneEach(blocked)
    ensures FewerWaiters(Unblock(blocked, inode, ids), blocked)
    ensures forall w :: w in Unblock(blocked, inode, ids) <==>
                        w in blocked && !(w.inode == inode && w.blocker in ids)
  {
    if blocked != [] {
      UnblockFewer(blocked[1..], inode, ids);
      assert forall w :: w in blocked <==> w == blocked[0] || w in blocked[1..];
    }
  }

  lemma {:induction false} UnblockOwnerFewer(blocked: seq<Waiter>, o: Owner)
    requires OneEach(blocked)
    ensures FewerWaiters(UnblockOwner(blocked, o), blocked)
    ensures forall w :: w in UnblockOwner(blocked, o) <==> w in blocked && w.req.owner != o
  {
    if blocked != [] {
      UnblockOwnerFewer(blocked[1..], o);
      assert forall w :: w in blocked <==> w == blocked[0] || w in blocked[1..];
    }
  }

  lemma {:induction false} FindWaiterIs(blocked: seq<Waiter>, w: Waiter)
    requires OneEach(blocked) && w in blocked
    ensures FindWaiter(blocked, w.req.owner) == Some(w)
  {
    if blocked[0] != w {
      assert w in blocked[1..];
      FindWaiterIs(blocked[1..], w);
    }
  }

  lemma {:induction false} FindWaiterIn(blocked: seq<Waiter>, o: Owner)
    ensures match FindWaiter(blocked, o)
            case Some(w) => w in blocked && w.req.owner == o
            case None => forall w :: w in blocked ==> w.req.owner != o
  {
    if blocked != [] && blocked[0].req.owner != o {
      FindWaiterIn(blocked[1..], o);
    }
  }

  // ---- the invariant

  ghost predicate ListInv(list: seq<Lock>, n: nat) {
    AllProper(list) && Exclusive(list) && UniqueIds(list) && IdsBelow(list, n)
  }

  /** The sleeper waits for a lock that is in the list and conflicts with it. */
  predicate HeldBack(w: Waiter, list: seq<Lock>) {
    match Deref(list, w.blocker)
    case Some(l) => Conflict(w.req, l)
    case None => false
  }

  /** Each owner sleeps at most once, and only for a lock that still stands in its way. */
  ghost predicate WaitersInv(t: Table) {
    && OneEach(t.blocked)
    && forall w :: w in t.blocked ==> HeldBack(w, Locks(t, w.inode))
  }

  /** The owner that `o` is recorded to wait for. */
  function NextOwner(t: Table, o: Owner): Option<Owner> {
    match FindWaiter(t.blocked, o)
    case None => None
    case Some(w) =>
      match Deref(Locks(t, w.inode), w.blocker)
      case None => None
      case Some(l) => Some(l.owner)
  }

  /** Following the recorded blockers from `o` leads, in at most `n` steps, to an owner that is awake. */
  predicate EndsWithin(t: Table, o: Owner, n: nat)
    decreases n
  {
    match NextOwner(t, o)
    case None => true
    case Some(o') => n > 0 && EndsWithin(t, o', n - 1)
  }

  ghost predicate Ends(t: Table, o: Owner) {
    exists n: nat :: EndsWithin(t, o, n)
  }

  ghost predicate NoDeadlock(t: Table) {
    forall o :: Ends(t, o)
  }

  ghost predicate TableInv(t: Table) {
    && (forall inode :: inode in t.flock ==> ListInv(t.flock[inode], t.nextId))
    && WaitersInv(t)
    && NoDeadlock(t)
  }

  // ---- chains of blockers

  /** `target` is met within `n` steps when following the recorded blockers from `o`. */
  predicate Reaches(t: Table, o: Owner, target: Owner, n: nat)
    decreases n
  {
    || o == target
    || match NextOwner(t, o)
       case None => false
       case Some(o') => n > 0 && Reaches(t, o', target, n - 1)
  }

  /** If a chain from `o` ends within `n` steps and meets `target`, the rest of it ends sooner. */
  lemma {:induction false} Suffix(t: Table, o: Owner, target: Owner, n: nat, k: nat) returns (m: nat)
    requires EndsWithin(t, o, n) && Reaches(t, o, target, k)
    ensures m <= n && EndsWithin(t, target, m)
    ensures o != target ==> m < n
    decreases k
  {
    if o == target {
      m := n;
    } else {
      m := Suffix(t, NextOwner(t, o).value, target, n - 1, k - 1);
    }
  }

  /** No owner waits for itself through others. */
  lemma {:induction false} NoCycle(t: Table, o: Owner, o': Owner, n: nat, k: nat)
    requires EndsWithin(t, o', n) && NextOwner(t, o) == Some(o')
    ensures !Reaches(t, o', o, k)
    decreases n
  {
    if Reaches(t, o', o, k) {
      var m := Suffix(t, o', o, n, k);
      NoCycle(t, o, o', m - 1, k);
    }
  }

  lemma {:induction false} EndsLonger(t: Table, o: Owner, n: nat, m: nat)
    requires EndsWithin(t, o, n) && n <= m
    ensures EndsWithin(t, o, m)
    decreases n
  {
    if NextOwner(t, o).Some? { EndsLonger(t, NextOwner(t, o).value, n - 1, m - 1); }
  }

  /** A table in which each owner waits for the same owner as before, or no longer. */
  ghost predicate FewerEdges(small: Table, big: Table) {
    forall o :: NextOwner(small, o) == None || NextOwner(small, o) == NextOwner(big, o)
  }

  lemma {:induction false} EndsStill(small: Table, big: Table, o: Owner, n: nat)
    requires FewerEdges(small, big) && EndsWithin(big, o, n)
    ensures EndsWithin(small, o, n)
    decreases n
  {
    if NextOwner(small, o).Some? { EndsStill(small, big, NextOwner(small, o).value, n - 1); }
  }

  lemma FewerKeepsNoDeadlock(small: Table, big: Table)
    requires FewerEdges(small, big) && NoDeadlock(big)
    ensures NoDeadlock(small)
  {
    forall o ensures Ends(small, o) {
      assert Ends(big, o);
      var n: nat :| EndsWithin(big, o, n);
      EndsStill(small, big, o, n);
    }
  }

  /** A table in which `c`, awake before, now waits for `b`. */
  ghost predicate OneMoreEdge(t: Table, t': Table, c: Owner, b: Owner) {
    && NextOwner(t, c) == None && NextOwner(t', c) == Some(b)
    && forall o :: o != c ==> NextOwner(t', o) == NextOwner(t, o)
  }

  /** A chain that does not meet `c` is not changed by the new edge. */
  lemma {:induction false} ChainAvoids(t: Table, t': Table, c: Owner, b: Owner, o: Owner, n: nat)
    requires OneMoreEdge(t, t', c, b) && EndsWithin(t, o, n) && !Reaches(t, o, c, n)
    ensures EndsWithin(t', o, n)
    decreases n
  {
    if NextOwner(t, o).Some? { ChainAvoids(t, t', c, b, NextOwner(t, o).value, n - 1); }
  }

  /** A chain that meets `c` goes on with the chain of `b`. */
  lemma {:induction false} ChainExtends(t: Table, t': Table, c: Owner, b: Owner, o: Owner, n: nat, m: nat)
    requires OneMoreEdge(t, t', c, b) && EndsWithin(t, o, n) && EndsWithin(t', b, m)
    ensures EndsWithin(t', o, n + 1 + m)
    decreases n
  {
    if o == c {
      EndsLonger(t', b, m, n + m);
    } else if NextOwner(t, o).Some? {
      ChainExtends(t, t', c, b, NextOwner(t, o).value, n - 1, m);
    }
  }

  /** If the blocker's chain does not meet the caller, putting the caller to sleep makes no deadlock. */
  lemma SleepKeepsNoDeadlock(t: Table, t': Table, c: Owner, b: Owner)
    requires NoDeadlock(t) && OneMoreEdge(t, t', c, b)
    requires forall n: nat :: !Reaches(t, b, c, n)
    ensures NoDeadlock(t')
  {
    assert Ends(t, b);
    var m: nat :| EndsWithin(t, b, m);
    ChainAvoids(t, t', c, b, b, m);
    forall o ensures Ends(t', o) {
      assert Ends(t, o);
      var n: nat :| EndsWithin(t, o, n);
      ChainExtends(t, t', c, b, o, n, m);
    }
  }

  // ---- events

  /** The first lock of the list that blocks `r`, or the length of the list. */
  function FirstConflict(list: seq<Lock>, r: Request): (k: nat)
    ensures k <= |list| && (k < |list| ==> Conflict(r, list[k]))
    ensures forall i :: 0 <= i < k ==> !Conflict(r, list[i])
  {
    if list == [] || Conflict(r, list[0]) then 0 else 1 + FirstConflict(list[1..], r)
  }

  /** The list without the locks of one set of open files. */
  function Without(list: seq<Lock>, files: nat): seq<Lock> {
    if list == [] then []
    else if list[0].owner.files == files then Without(list[1..], files)
    else [list[0]] + Without(list[1..], files)
  }

  function FilesIds(list: seq<Lock>, files: nat): set<nat> {
    set l | l in list && l.owner.files == files :: l.id
  }

  datatype Event =
    | Grant(inode: nat, req: Request)
    | Sleep(inode: nat, req: Request)
    | Awake(owner: Owner)
    | Close(inode: nat, files: nat)

  predicate Asleep(t: Table, o: Owner) {
    FindWaiter(t.blocked, o).Some?
  }

  ghost predicate Deadlock(t: Table, blocker: Owner, caller: Owner) {
    exists n: nat :: Reaches(t, blocker, caller, n)
  }

  /** A task that is asleep issues no request; it sleeps only after the deadlock test. */
  ghost predicate Enabled(t: Table, e: Event) {
    match e
    case Grant(inode, r) =>
      && ValidRequest(r) && !Asleep(t, r.owner)
      && FirstConflict(Locks(t, inode), r) == |Locks(t, inode)|
    case Sleep(inode, r) =>
      && ValidRequest(r) && !Asleep(t, r.owner)
      && var k := FirstConflict(Locks(t, inode), r);
         k < |Locks(t, inode)| && !Deadlock(t, Locks(t, inode)[k].owner, r.owner)
    case Awake(_) => true
    case Close(_, _) => true
  }

  function AfterGrant(t: Table, inode: nat, r: Request): Table {
    var a := Apply(Locks(t, inode), r, t.nextId, t.nextId + 1);
    Table(t.flock[inode := a.list], Unblock(t.blocked, inode, a.woken), t.nextId + 2)
  }

  function AfterSleep(t: Table, inode: nat, r: Request): Table {
    var k := FirstConflict(Locks(t, inode), r);
    if k < |Locks(t, inode)| then t.(blocked := [Waiter(r, inode, Locks(t, inode)[k].id)] + t.blocked)
    else t
  }

  function AfterClose(t: Table, inode: nat, files: nat): Table {
    var list := Locks(t, inode);
    t.(flock := t.flock[inode := Without(list, files)],
       blocked := Unblock(t.blocked, inode, FilesIds(list, files)))
  }

  function After(t: Table, e: Event): Table {
    match e
    case Grant(inode, r) => AfterGrant(t, inode, r)
    case Sleep(inode, r) => AfterSleep(t, inode, r)
    case Awake(o) => t.(blocked := UnblockOwner(t.blocked, o))
    case Close(inode, files) => AfterClose(t, inode, files)
  }

  // ---- every event keeps the invariant

  /** Locks that are not in `ids` have at most grown. */
  ghost predicate OthersSurvive(list: seq<Lock>, list': seq<Lock>, ids: set<nat>) {
    forall i :: 0 <= i < |list| && list[i].id !in ids ==> Survives(list[i], list')
  }

  lemma StillHeldBack(list: seq<Lock>, list': seq<Lock>, ids: set<nat>, w: Waiter)
    requires OthersSurvive(list, list', ids) && UniqueIds(list')
    requires HeldBack(w, list) && w.blocker !in ids
    ensures HeldBack(w, list')
    ensures Deref(list', w.blocker).value.owner == Deref(list, w.blocker).value.owner
  {
    var k := DerefIndex(list, w.blocker);
    assert Survives(list[k], list');
    var m :| 0 <= m < |list'| && Grown(list[k], list'[m]);
    DerefAt(list', m);
  }

  /** Replacing one list and waking the sleepers of `ids` strands nobody and adds no edge. */
  lemma ReplaceList(t: Table, t': Table, inode: nat, ids: set<nat>)
    requires WaitersInv(t)
    requires t'.flock == t.flock[inode := Locks(t', inode)] && t'.blocked == Unblock(t.blocked, inode, ids)
    requires UniqueIds(Locks(t', inode)) && OthersSurvive(Locks(t, inode), Locks(t', inode), ids)
    ensures WaitersInv(t') && FewerEdges(t', t)
  {
    UnblockFewer(t.blocked, inode, ids);
    forall w | w in t'.blocked
      ensures HeldBack(w, Locks(t', w.inode))
      ensures Deref(Locks(t', w.inode), w.blocker).value.owner == Deref(Locks(t, w.inode), w.blocker).value.owner
    {
      assert HeldBack(w, Locks(t, w.inode));
      if w.inode == inode { StillHeldBack(Locks(t, inode), Locks(t', inode), ids, w); }
    }
    forall o ensures NextOwner(t', o) == None || NextOwner(t', o) == NextOwner(t, o) {
      FindWaiterIn(t'.blocked, o);
      if FindWaiter(t'.blocked, o).Some? { FindWaiterIs(t.blocked, FindWaiter(t'.blocked, o).value); }
    }
  }

  lemma LocksInv(t: Table, inode: nat)
    requires TableInv(t)
    ensures ListInv(Locks(t, inode), t.nextId)
  {
  }

  lemma IdsStayBelow(list: seq<Lock>, list': seq<Lock>, n: nat)
    requires IdsBelow(list, n) && forall i :: 0 <= i < |list'| ==> list'[i].id in Ids(list) + {n, n + 1}
    ensures IdsBelow(list', n + 2)
  {
  }

  lemma GrantList(list: seq<Lock>, r: Request, n: nat)
    requires ListInv(list, n) && ValidRequest(r) && FirstConflict(list, r) == |list|
    ensures var a := Apply(list, r, n, n + 1); ListInv(a.list, n + 2) && OthersSurvive(list, a.list, a.woken)
  {
    hide Apply, Exclusive;
    var a := Apply(list, r, n, n + 1);
    ApplySane(list, r, n, n + 1);
    GrantKeepsExclusion(list, r, a.list);
    IdsStayBelow(list, a.list, n);
  }

  lemma GrantInv(t: Table, inode: nat, r: Request)
    requires TableInv(t) && Enabled(t, Grant(inode, r))
    ensures TableInv(AfterGrant(t, inode, r))
  {
    hide Apply, Exclusive, WaitersInv, NoDeadlock, OthersSurvive, FewerEdges;
    var list, t' := Locks(t, inode), AfterGrant(t, inode, r);
    LocksInv(t, inode);
    GrantList(list, r, t.nextId);
    ReplaceList(t, t', inode, Apply(list, r, t.nextId, t.nextId + 1).woken);
    FewerKeepsNoDeadlock(t', t);
  }

  lemma SleepInv(t: Table, inode: nat, r: Request)
    requires TableInv(t) && Enabled(t, Sleep(inode, r))
    ensures TableInv(AfterSleep(t, inode, r))
  {
    hide Exclusive, NoDeadlock, EndsWithin, Reaches;
    var list, t' := Locks(t, inode), AfterSleep(t, inode, r);
    var k := FirstConflict(list, r);
    LocksInv(t, inode);
    DerefAt(list, k);
    FindWaiterIn(t.blocked, r.owner);
    assert forall w :: w in t'.blocked <==> w == t'.blocked[0] || w in t.blocked;
    forall o ensures o != r.owner ==> NextOwner(t', o) == NextOwner(t, o) {
      assert t'.blocked[1..] == t.blocked;
    }
    assert OneMoreEdge(t, t', r.owner, list[k].owner);
    SleepKeepsNoDeadlock(t, t', r.owner, list[k].owner);
  }

  lemma AwakeInv(t: Table, o: Owner)
    requires TableInv(t)
    ensures TableInv(After(t, Awake(o)))
  {
    var t' := After(t, Awake(o));
    UnblockOwnerFewer(t.blocked, o);
    forall p ensures NextOwner(t', p) == None || NextOwner(t', p) == NextOwner(t, p) {
      FindWaiterIn(t'.blocked, p);
      if FindWaiter(t'.blocked, p).Some? { FindWaiterIs(t.blocked, FindWaiter(t'.blocked, p).value); }
    }
    FewerKeepsNoDeadlock(t', t);
  }

  // ---- closing a file

  /** Where lock `i` of the shortened list was before. */
  function Origin(list: seq<Lock>, files: nat, i: nat): (k: nat)
    requires i < |Without(list, files)|
    ensures k < |list| && list[k] == Without(list, files)[i]
  {
    if list[0].owner.files == files then 1 + Origin(list[1..], files, i)
    else if i == 0 then 0
    else 1 + Origin(list[1..], files, i - 1)
  }

  lemma {:induction false} OriginMonotone(list: seq<Lock>, files: nat, i: nat, j: nat)
    requires i < j < |Without(list, files)|
    ensures Origin(list, files, i) < Origin(list, files, j)
  {
    if list[0].owner.files == files {
      OriginMonotone(list[1..], files, i, j);
    } else if i > 0 {
      OriginMonotone(list[1..], files, i - 1, j - 1);
    }
  }

  lemma {:induction false} WithoutKeeps(list: seq<Lock>, files: nat, k: nat)
    requires k < |list| && list[k].owner.files != files
    ensures list[k] in Without(list, files)
  {
    if k > 0 { WithoutKeeps(list[1..], files, k - 1); }
  }

  lemma WithoutInv(list: seq<Lock>, files: nat, n: nat)
    requires ListInv(list, n)
    ensures ListInv(Without(list, files), n)
    ensures OthersSurvive(list, Without(list, files), FilesIds(list, files))
  {
    var s := Without(list, files);
    forall i | 0 <= i < |s| ensures Proper(s[i]) && s[i].id < n { assert s[i] == list[Origin(list, files, i)]; }
    forall i: nat, j: nat | i < j < |s| ensures s[i].id != s[j].id { OriginMonotone(list, files, i, j); }
    forall i, j, b | 0 <= i < |s| && 0 <= j < |s| && s[i].owner != s[j].owner && Covers(s[i], b) && Covers(s[j], b)
      ensures s[i].kind == Read
    {
      assert s[i] == list[Origin(list, files, i)] && s[j] == list[Origin(list, files, j)];
    }
    forall i | 0 <= i < |list| && list[i].id !in FilesIds(list, files) ensures Survives(list[i], s) {
      assert list[i] in list;
      WithoutKeeps(list, files, i);
      var k :| 0 <= k < |s| && s[k] == list[i];
      assert Grown(list[i], s[k]);
    }
  }

  lemma CloseInv(t: Table, inode: nat, files: nat)
    requires TableInv(t)
    ensures TableInv(AfterClose(t, inode, files))
  {
    var t' := AfterClose(t, inode, files);
    LocksInv(t, inode);
    WithoutInv(Locks(t, inode), files, t.nextId);
    ReplaceList(t, t', inode, FilesIds(Locks(t, inode), files));
    FewerKeepsNoDeadlock(t', t);
  }

  lemma StepInv(t: Table, e: Event)
    requires TableInv(t) && Enabled(t, e)
    ensures TableInv(After(t, e))
  {
    match e
    case Grant(inode, r) => GrantInv(t, inode, r);
    case Sleep(inode, r) => SleepInv(t, inode, r);
    case Awake(o) => AwakeInv(t, o);
    case Close(inode, files) => CloseInv(t, inode, files);
  }

  // ---- runs

  /** The events can happen one after the other from `t`. */
  ghost predicate Possible(t: Table, run: seq<Event>)
    decreases |run|
  {
    run == [] || (Enabled(t, run[0]) && Possible(After(t, run[0]), run[1..]))
  }

  function Final(t: Table, run: seq<Event>): Table
    decreases |run|
  {
    if run == [] then t else Final(After(t, run[0]), run[1..])
  }

  lemma {:induction false} RunInv(t: Table, run: seq<Event>)
    requires TableInv(t) && Possible(t, run)
    ensures TableInv(Final(t, run))
    decreases |run|
  {
    if run != [] {
      StepInv(t, run[0]);
      RunInv(After(t, run[0]), run[1..]);
    }
  }

  lemma EmptyInv()
    ensures TableInv(EMPTY)
  {
    forall o ensures Ends(EMPTY, o) { assert EndsWithin(EMPTY, o, 0); }
  }

  /**
   In every state that a run from the empty table can reach: no byte is write-locked against another lock;
   every sleeper waits for a lock that is still there and still conflicts with it; and the chain of blockers
   of every owner ends in one that is awake.
   */
  lemma EveryRunIsSafe(run: seq<Event>, inode: nat)
    requires Possible(EMPTY, run)
    ensures var t := Final(EMPTY, run); Exclusive(Locks(t, inode)) && WaitersInv(t) && NoDeadlock(t)
  {
    EmptyInv();
    RunInv(EMPTY, run);
    LocksInv(Final(EMPTY, run), inode);
  }

  // ---- the normal form

  predicate AllCanonical(t: Table) {
    forall inode :: inode in t.flock ==> Canonical(t.flock[inode])
  }

  /** No request of the run meets the wrap-around with a lock to merge. */
  predicate RunMergeSafe(t: Table, run: seq<Event>)
    decreases |run|
  {
    run == [] ||
    (&& (run[0].Grant? ==> MergeSafe(Locks(t, run[0].inode), run[0].req))
     && RunMergeSafe(After(t, run[0]), run[1..]))
  }

  lemma WithoutCanonical(list: seq<Lock>, files: nat)
    requires Canonical(list)
    ensures Canonical(Without(list, files))
  {
    var s := Without(list, files);
    forall i | 0 <= i < |s| ensures WellFormed(s[i]) { assert s[i] == list[Origin(list, files, i)]; }
    forall i: nat, j: nat | i < j < |s| ensures s[i].owner == s[j].owner ==> Apart(s[i], s[j]) {
      OriginMonotone(list, files, i, j);
    }
    forall i: nat, j: nat, k: nat | i < j < k < |s| ensures Encloses(s, i, j, k) {
      OriginMonotone(list, files, i, j);
      OriginMonotone(list, files, j, k);
      assert Encloses(list, Origin(list, files, i), Origin(list, files, j), Origin(list, files, k));
    }
  }

  lemma LocksCanonical(t: Table, inode: nat)
    requires AllCanonical(t)
    ensures Canonical(Locks(t, inode))
  {
  }

  lemma StepCanonical(t: Table, e: Event)
    requires AllCanonical(t) && Enabled(t, e)
    ensures AllCanonical(After(t, e)) <==> (e.Grant? ==> MergeSafe(Locks(t, e.inode), e.req))
  {
    hide Canonical, Apply, MergeSafe, Without;
    match e {
      case Grant(inode, r) =>
        LocksCanonical(t, inode);
        ApplyCanonicalIff(Locks(t, inode), r, t.nextId, t.nextId + 1);
        assert After(t, e).flock[inode] == Apply(Locks(t, inode), r, t.nextId, t.nextId + 1).list;
      case Close(inode, files) =>
        LocksCanonical(t, inode);
        WithoutCanonical(Locks(t, inode), files);
      case Sleep(_, _) =>
      case Awake(_) =>
    }
  }

  /** The list of every inode is in normal form at all times of the run. */
  predicate AlwaysCanonical(t: Table, run: seq<Event>)
    decreases |run|
  {
    AllCanonical(t) && (run == [] || AlwaysCanonical(After(t, run[0]), run[1..]))
  }

  /** A run keeps the normal form at all times exactly if none of its requests meets the wrap-around. */
  lemma {:induction false} EveryRunIsCanonical(t: Table, run: seq<Event>)
    requires AllCanonical(t) && Possible(t, run)
    ensures AlwaysCanonical(t, run) <==> RunMergeSafe(t, run)
    decreases |run|
  {
    hide AllCanonical, Enabled, After, MergeSafe;
    if run != [] {
      var t1 := After(t, run[0]);
      StepCanonical(t, run[0]);
      if AllCanonical(t1) {
        EveryRunIsCanonical(t1, run[1..]);
      }
    }
  }
}
