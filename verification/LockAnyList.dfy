/**
 `posix_lock_file` on any lock list, in normal form or not: what the caller holds afterwards, byte by byte, and the
 exact condition under which that is what it asked for.
 */
module LockAnyList {
  import opened Basics
  import opened FileLocks
  import opened LockEdit
  import opened LockWrap

  predicate InReq(req: Request, o: Owner, b: int) {
    o == req.owner && req.start <= b <= req.end
  }

  /** A lock of the caller of another type that covers a byte of the request. */
  predicate Other(l: Lock, r: Request) {
    l.owner == r.owner && l.kind != r.kind && l.start <= l.end && l.start <= r.end && r.start <= l.end
  }

  predicate AnyOther(s: seq<Lock>, r: Request) {
    exists i :: 0 <= i < |s| && Other(s[i], r)
  }

  /** The request after it has taken in a lock of its type. */
  function Widened(req: Request, l: Lock): Request {
    req.(start := Min(l.start, req.start), end := Max(l.end, req.end))
  }

  /** What the request has grown to when the loop ends; the loop is at the first lock of `s`. */
  function Reach(s: seq<Lock>, req: Request): Request
    decreases |s|
  {
    if s == [] || s[0].owner != req.owner then req
    else
      var l, rest := s[0], s[1..];
      if l.kind == req.kind then
        if l.end < req.start - 1 then Reach(rest, req)
        else if l.start > Succ(req.end) then req
        else Reach(rest, Widened(req, l))
      else if l.end < req.start then Reach(rest, req)
      else if l.start > req.end || l.end > req.end then req
      else Reach(rest, req)
  }

  /**
   A lock of another type is left in the window `w`, which lies in what the request reaches: the loop is at the first
   lock of `s`, the request has grown to `req`, and `pending` says that the last lock to be shortened from the right is
   one in the window. A lock is left if it is passed and then the request grows over it or another one is to be
   shortened in its place, or if the loop does not get to it.
   */
  predicate LeavesOther(s: seq<Lock>, req: Request, w: Request, pending: bool)
    decreases |s|
  {
    if s == [] || s[0].owner != w.owner then AnyOther(s, w)
    else
      var l, rest := s[0], s[1..];
      if l.kind == w.kind then
        if l.end < req.start - 1 then LeavesOther(rest, req, w, pending)
        else if l.start > Succ(req.end) then AnyOther(rest, w)
        else LeavesOther(rest, Widened(req, l), w, pending)
      else if l.end < req.start then Other(l, w) || LeavesOther(rest, req, w, pending)
      else if l.start > req.end then AnyOther(rest, w)
      else if l.end > req.end then (l.start < req.start && pending) || AnyOther(rest, w)
      else if l.start < req.start then pending || LeavesOther(rest, req, w, Other(l, w))
      else LeavesOther(rest, req, w, pending)
  }

  /** One byte of the request, or of what it has grown to. */
  function Byte(r: Request, b: int): Request {
    r.(start := b, end := b)
  }

  function OtherKind(k: Kind): Kind {
    if k == Read then Write else Read
  }

  predicate LeavesNone(list: seq<Lock>, r: Request) {
    !LeavesOther(list[Skip(list, r.owner)..], r, r, false)
  }

  /** No byte outside the range loses the other type: on each byte the request grows to, a lock of that type is left. */
  ghost predicate KeepsOutside(list: seq<Lock>, r: Request) {
    var s := list[Skip(list, r.owner)..];
    forall b :: InReq(Reach(s, r), r.owner, b) && !InReq(r, r.owner, b) && Holds(list, r.owner, b, OtherKind(r.kind)) ==>
                  LeavesOther(s, r, Byte(r, b), false)
  }

  lemma AnyConcat(s: seq<Lock>, t: seq<Lock>, r: Request)
    ensures AnyOther(s + t, r) <==> AnyOther(s, r) || AnyOther(t, r)
  {
    if i :| 0 <= i < |s| && Other(s[i], r) { assert (s + t)[i] == s[i]; }
    if i :| 0 <= i < |t| && Other(t[i], r) { assert (s + t)[|s| + i] == t[i]; }
  }

  // ---- the loop

  /** The caller's lock is where the loop says and has the caller's range; `left` is a lock of another type. */
  predicate Editing(e: Edit, r: Request) {
    && ValidRequest(r) && AllProper(e.todo) && !e.right && !e.left.AtBefore?
    && e.req.owner == r.owner && e.req.kind == r.kind && (r.kind == Unlock ==> e.req == r)
    && 0 <= e.req.start <= r.start && r.end <= e.req.end <= OFFSET_MAX
    && (e.added && r.kind != Unlock ==> e.caller.Node?)
    && (e.caller.Node? ==>
          e.caller.at < |e.done| && SameRange(e.done[e.caller.at], Lock(0, r.owner, r.kind, e.req.start, e.req.end)))
    && (e.left.Passed? ==>
          && e.left.at < |e.done| && e.done[e.left.at].owner == r.owner && e.done[e.left.at].kind != r.kind
          && e.req.start - 1 <= e.done[e.left.at].end <= e.req.end && (r.kind == Unlock ==> e.added))
  }

  /** Outside the caller's range nothing has changed, and in it no type but the caller's is new. */
  predicate Holding(list: seq<Lock>, r: Request, s: seq<Lock>, req: Request, o: Owner, b: int, k: Kind) {
    && (!InReq(req, o, b) ==> (Holds(s, o, b, k) <==> Holds(list, o, b, k)))
    && (!(o == r.owner && k == r.kind != Unlock) ==> Holds(s, o, b, k) ==> Holds(list, o, b, k))
    && (InReq(req, o, b) && !InReq(r, o, b) ==> Holds(list, o, b, r.kind))
  }

  /** A lock in the window that has been passed and is not `left`. */
  predicate Missed(e: Edit, w: Request) {
    exists i :: 0 <= i < |e.done| && Other(e.done[i], w) && e.left != Passed(i)
  }

  predicate Pending(e: Edit, w: Request) {
    e.left.Passed? && e.left.at < |e.done| && Other(e.done[e.left.at], w)
  }

  /** What will be left in the window. */
  predicate Leaves(e: Edit, w: Request) {
    Missed(e, w) || LeavesOther(e.todo, e.req, w, Pending(e, w))
  }

  /** A lock is passed, and perhaps is the new `left`. */
  lemma PushMissed(e: Edit, e1: Edit, w: Request, l: Lock)
    requires e1.done == e.done + [l] && (e.left.Passed? ==> e.left.at < |e.done|)
    ensures e1.left == e.left ==>
              (Missed(e1, w) <==> Missed(e, w) || Other(l, w)) && (Pending(e1, w) <==> Pending(e, w))
    ensures e1.left == Passed(|e.done|) ==>
              (Missed(e1, w) <==> Missed(e, w) || Pending(e, w)) && (Pending(e1, w) <==> Other(l, w))
  {
    if i :| 0 <= i < |e.done| && Other(e.done[i], w) && e.left != Passed(i) { assert e1.done[i] == e.done[i]; }
    if i :| 0 <= i < |e1.done| && Other(e1.done[i], w) && e1.left != Passed(i) {
      if i < |e.done| { assert e1.done[i] == e.done[i]; }
    }
    assert e1.done[|e.done|] == l;
    if Pending(e, w) { assert e1.done[e.left.at] == e.done[e.left.at]; }
  }

  /** A lock of the caller's type is replaced by another. */
  lemma SetMissed(e: Edit, e1: Edit, w: Request, c: nat, m: Lock)
    requires c < |e.done| && e1.done == e.done[c := m] && e1.left == e.left
    requires e.done[c].kind == w.kind == m.kind
    ensures (Missed(e1, w) <==> Missed(e, w)) && (Pending(e1, w) <==> Pending(e, w))
  {
    if i :| 0 <= i < |e.done| && Other(e.done[i], w) && e.left != Passed(i) { assert e1.done[i] == e.done[i]; }
    if i :| 0 <= i < |e1.done| && Other(e1.done[i], w) && e1.left != Passed(i) { assert e1.done[i] == e.done[i]; }
  }

  predicate SameCaller(r: Request, w: Request) {
    w.owner == r.owner && w.kind == r.kind
  }

  predicate AtOwnLock(e: Edit, r: Request) {
    e.todo != [] && e.todo[0].owner == r.owner
  }

  lemma MergeEdits(e: Edit, r: Request, w: Request)
    requires SameCaller(r, w) && Editing(e, r) && AtOwnLock(e, r) && e.todo[0].kind == r.kind
    requires e.req.start - 1 <= e.todo[0].end && e.todo[0].start <= Succ(e.req.end)
    ensures Editing(Merge(e), r) && (Leaves(Merge(e), w) <==> Leaves(e, w))
  {
    var fl, e1 := e.todo[0], Merge(e);
    assert Proper(fl);
    assert e1.req == Widened(e.req, fl);
    if e.added {
      SetMissed(e, e1, w, e.caller.at, e.done[e.caller.at].(start := e1.req.start, end := e1.req.end));
    } else {
      PushMissed(e, e1, w, fl.(start := e1.req.start, end := e1.req.end));
    }
  }

  lemma SameTypeEdits(e: Edit, r: Request, w: Request)
    requires SameCaller(r, w) && Editing(e, r) && AtOwnLock(e, r) && e.todo[0].kind == r.kind && SameType(e).Go?
    ensures Editing(SameType(e).e, r) && (Leaves(SameType(e).e, w) <==> Leaves(e, w))
  {
    if e.todo[0].end < e.req.start - 1 {
      PushMissed(e, Next(e), w, e.todo[0]);
    } else {
      MergeEdits(e, r, w);
    }
  }

  lemma OtherTypeEdits(e: Edit, r: Request, w: Request)
    requires SameCaller(r, w) && Editing(e, r) && AtOwnLock(e, r) && e.todo[0].kind != r.kind && OtherType(e).Go?
    ensures Editing(OtherType(e).e, r) && (Leaves(OtherType(e).e, w) <==> Leaves(e, w))
  {
    var fl, e1 := e.todo[0], OtherType(e).e;
    assert Proper(fl);
    if e1.done == e.done + [fl] {
      PushMissed(e, e1, w, fl);
    } else if e1.done != e.done {
      PushMissed(e, e1, w, fl.(kind := e.req.kind, start := e.req.start, end := e.req.end));
    }
  }

  // ---- the end of the loop

  /** The caller's new lock, if no lock of the list has taken its place. */
  function Ins(e: Edit, id1: nat): seq<Lock> {
    if e.added || e.req.kind == Unlock then [] else [Lock(id1, e.req.owner, e.req.kind, e.req.start, e.req.end)]
  }

  /** The loop ends before the current lock, if any, which is left as it is. */
  predicate StopsBefore(e: Edit, r: Request) {
    e.todo == [] || e.todo[0].owner != r.owner ||
    (if e.todo[0].kind == r.kind then e.req.start - 1 <= e.todo[0].end && Succ(e.req.end) < e.todo[0].start
     else e.req.start <= e.todo[0].end && e.req.end < e.todo[0].start)
  }

  /** The loop ends at a lock of another type that reaches above the caller. */
  predicate StopsAtRight(e: Edit, r: Request) {
    && AtOwnLock(e, r) && e.todo[0].kind != r.kind
    && e.req.start <= e.todo[0].end && e.todo[0].start <= e.req.end < e.todo[0].end
  }

  lemma EndBefore(e: Edit, r: Request, id1: nat, id2: nat)
    requires Editing(e, r) && StopsBefore(e, r)
    ensures Walk(e) == e && Finish(e, id1, id2).list == TrimLeft(e) + Ins(e, id1) + e.todo
  {
  }

  /** What becomes of the lock at which the loop ends, with the caller's new lock between the pieces. */
  function Pieces(e: Edit, id1: nat, id2: nat): seq<Lock>
    requires e.todo != []
  {
    var fl := e.todo[0];
    (if fl.start < e.req.start then [fl.(id := id2, end := e.req.start - 1)] else [])
    + Ins(e, id1) + [fl.(start := Succ(e.req.end))]
  }

  /** What is kept of the locks passed: `left` gives way to the lock at which the loop ends. */
  function Passing(e: Edit): seq<Lock>
    requires e.todo != []
  {
    if e.todo[0].start < e.req.start then e.done else TrimLeft(e)
  }

  lemma EndRight(e: Edit, r: Request, id1: nat, id2: nat)
    requires Editing(e, r) && StopsAtRight(e, r)
    ensures Walk(e).req == e.req
    ensures Finish(Walk(e), id1, id2).list == Passing(e) + Pieces(e, id1, id2) + e.todo[1..]
  {
    var fl, f := e.todo[0], Walk(e);
    assert f == e.(added := e.added || e.req.kind == Unlock, right := true,
                   left := if fl.start < e.req.start then AtBefore else e.left);
    assert Ins(f, id1) == Ins(e, id1);
  }

  /** The window lies in what the request has grown to. */
  predicate Window(e: Edit, r: Request, w: Request) {
    SameCaller(r, w) && e.req.start <= w.start && w.end <= e.req.end
  }

  lemma TrimOther(e: Edit, r: Request, w: Request)
    requires Editing(e, r) && Window(e, r, w)
    ensures AnyOther(TrimLeft(e), w) <==> Missed(e, w)
    ensures AnyOther(e.done, w) <==> Missed(e, w) || Pending(e, w)
  {
    var t := TrimLeft(e);
    if i :| 0 <= i < |e.done| && Other(e.done[i], w) && e.left != Passed(i) { assert t[i] == e.done[i]; }
    if i :| 0 <= i < |t| && Other(t[i], w) { assert e.left != Passed(i) && e.done[i] == t[i]; }
  }

  lemma EndLeaves(e: Edit, r: Request, w: Request, id1: nat, id2: nat)
    requires Editing(e, r) && Window(e, r, w) && (StopsBefore(e, r) || StopsAtRight(e, r))
    ensures AnyOther(Finish(Walk(e), id1, id2).list, w) <==> Leaves(e, w)
  {
    hide Walk, Finish, TrimLeft, Missed, Pending;
    TrimOther(e, r, w);
    if e.todo != [] {
      assert Proper(e.todo[0]) && e.todo == [e.todo[0]] + e.todo[1..];
      AnyConcat([e.todo[0]], e.todo[1..], w);
    }
    if StopsBefore(e, r) {
      EndBefore(e, r, id1, id2);
      AnyConcat(TrimLeft(e) + Ins(e, id1), e.todo, w);
      AnyConcat(TrimLeft(e), Ins(e, id1), w);
    } else {
      EndRight(e, r, id1, id2);
      AnyConcat(Passing(e) + Pieces(e, id1, id2), e.todo[1..], w);
      AnyConcat(Passing(e), Pieces(e, id1, id2), w);
    }
  }

  lemma RoundEdits(e: Edit, r: Request, w: Request)
    requires SameCaller(r, w) && Editing(e, r) && !StopsBefore(e, r) && !StopsAtRight(e, r)
    ensures e.todo != [] && OneRound(e).Go? && Walk(e) == Walk(OneRound(e).e)
    ensures Editing(OneRound(e).e, r) && (Leaves(OneRound(e).e, w) <==> Leaves(e, w))
  {
    hide Leaves;
    if e.todo[0].kind == r.kind { SameTypeEdits(e, r, w); } else { OtherTypeEdits(e, r, w); }
  }

  lemma RoundReach(e: Edit, r: Request)
    requires Editing(e, r) && !StopsBefore(e, r) && !StopsAtRight(e, r)
    ensures e.todo != [] && OneRound(e).Go?
    ensures var e1 := OneRound(e).e; Reach(e1.todo, e1.req) == Reach(e.todo, e.req)
  {
    assert Proper(e.todo[0]);
  }

  /** The loop ends with the request grown as `Reach` says. */
  lemma {:induction false} WalkReach(e: Edit, r: Request)
    requires Editing(e, r)
    ensures Walk(e).req == Reach(e.todo, e.req) && Walk(e).req.owner == r.owner && Walk(e).req.kind == r.kind
    ensures Walk(e).req.start <= r.start && r.end <= Walk(e).req.end
    decreases |e.todo|
  {
    hide Leaves, TrimLeft, Finish;
    if StopsBefore(e, r) {
      EndBefore(e, r, 0, 0);
      assert e.todo != [] ==> Proper(e.todo[0]);
    } else if StopsAtRight(e, r) {
      EndRight(e, r, 0, 0);
    } else {
      RoundEdits(e, r, r);
      RoundReach(e, r);
      WalkReach(OneRound(e).e, r);
    }
  }

  lemma {:induction false} WalkLeaves(e: Edit, r: Request, w: Request, id1: nat, id2: nat)
    requires Editing(e, r) && Window(Walk(e), r, w)
    ensures AnyOther(Finish(Walk(e), id1, id2).list, w) <==> Leaves(e, w)
    decreases |e.todo|
  {
    hide Editing, Finish, Leaves;
    if StopsBefore(e, r) || StopsAtRight(e, r) {
      assert Walk(e).req == e.req by {
        if StopsBefore(e, r) { EndBefore(e, r, id1, id2); } else { EndRight(e, r, id1, id2); }
      }
      EndLeaves(e, r, w, id1, id2);
    } else {
      RoundEdits(e, r, w);
      WalkLeaves(OneRound(e).e, r, w, id1, id2);
    }
  }

  // ---- what is held

  predicate Is(l: Lock, o: Owner, b: int, k: Kind) {
    l.owner == o && Covers(l, b) && l.kind == k
  }

  lemma HoldsOne(l: Lock, o: Owner, b: int, k: Kind)
    ensures Holds([l], o, b, k) <==> Is(l, o, b, k)
  {
    assert [l][0] == l;
  }

  lemma HoldsSet(s: seq<Lock>, c: nat, m: Lock, o: Owner, b: int, k: Kind)
    requires c < |s|
    ensures !Is(s[c], o, b, k) && !Is(m, o, b, k) ==> (Holds(s[c := m], o, b, k) <==> Holds(s, o, b, k))
    ensures Is(m, o, b, k) ==> Is(s[c], o, b, k) ==> (Holds(s[c := m], o, b, k) <==> Holds(s, o, b, k))
    ensures (Is(m, o, b, k) ==> Is(s[c], o, b, k)) ==> Holds(s[c := m], o, b, k) ==> Holds(s, o, b, k)
    ensures Is(m, o, b, k) ==> Holds(s[c := m], o, b, k)
  {
    var t := s[c := m];
    if i :| 0 <= i < |s| && s[i].owner == o && Covers(s[i], b) && s[i].kind == k { assert i != c ==> t[i] == s[i]; }
    if i :| 0 <= i < |t| && t[i].owner == o && Covers(t[i], b) && t[i].kind == k { assert i != c ==> t[i] == s[i]; }
    assert t[c] == m;
  }

  /** `x` between `s` and `t`. */
  lemma HoldsBetween(s: seq<Lock>, x: seq<Lock>, t: seq<Lock>, o: Owner, b: int, k: Kind)
    ensures Holds(s + x + t, o, b, k) <==> Holds(s, o, b, k) || Holds(x, o, b, k) || Holds(t, o, b, k)
  {
    HoldsConcat(s + x, t, o, b, k);
    HoldsConcat(s, x, o, b, k);
  }

  /** `done + todo`, with the current lock apart. */
  lemma HoldsAll(e: Edit, o: Owner, b: int, k: Kind)
    requires e.todo != []
    ensures Holds(e.done + e.todo, o, b, k) <==>
            Holds(e.done, o, b, k) || Is(e.todo[0], o, b, k) || Holds(e.todo[1..], o, b, k)
  {
    assert e.done + e.todo == e.done + [e.todo[0]] + e.todo[1..];
    HoldsBetween(e.done, [e.todo[0]], e.todo[1..], o, b, k);
    HoldsOne(e.todo[0], o, b, k);
  }

  lemma MergeHolding(list: seq<Lock>, e: Edit, r: Request, o: Owner, b: int, k: Kind)
    requires Editing(e, r) && AtOwnLock(e, r) && e.todo[0].kind == r.kind
    requires e.req.start - 1 <= e.todo[0].end && e.todo[0].start <= Succ(e.req.end)
    requires Holding(list, r, e.done + e.todo, e.req, o, b, k)
    requires Holding(list, r, e.done + e.todo, e.req, o, b, r.kind)
    ensures Holding(list, r, Merge(e).done + Merge(e).todo, Merge(e).req, o, b, k)
  {
    hide Holds;
    var fl, e1 := e.todo[0], Merge(e);
    assert Proper(fl);
    HoldsAll(e, o, b, k);
    HoldsAll(e, o, b, r.kind);
    if e.added {
      var m := e.done[e.caller.at].(start := e1.req.start, end := e1.req.end);
      HoldsSet(e.done, e.caller.at, m, o, b, k);
      HoldsConcat(e1.done, e1.todo, o, b, k);
    } else {
      var m := fl.(start := e1.req.start, end := e1.req.end);
      HoldsBetween(e.done, [m], e.todo[1..], o, b, k);
      HoldsOne(m, o, b, k);
    }
  }

  lemma RoundHolding(list: seq<Lock>, e: Edit, r: Request, o: Owner, b: int, k: Kind)
    requires Editing(e, r) && !StopsBefore(e, r) && !StopsAtRight(e, r)
    requires Holding(list, r, e.done + e.todo, e.req, o, b, k)
    requires Holding(list, r, e.done + e.todo, e.req, o, b, r.kind)
    ensures e.todo != [] && OneRound(e).Go?
    ensures var e1 := OneRound(e).e; Holding(list, r, e1.done + e1.todo, e1.req, o, b, k)
  {
    hide Holds;
    var fl, e1 := e.todo[0], OneRound(e).e;
    assert Proper(fl);
    if e1.done + e1.todo == e.done + e.todo && e1.req == e.req {
    } else if fl.kind == r.kind {
      MergeHolding(list, e, r, o, b, k);
    } else {
      HoldsAll(e, o, b, k);
      HoldsConcat(e.done, e.todo[1..], o, b, k);
      if e1.done != e.done {
        var m := fl.(kind := e.req.kind, start := e.req.start, end := e.req.end);
        HoldsBetween(e.done, [m], e.todo[1..], o, b, k);
        HoldsOne(m, o, b, k);
      }
    }
  }

  lemma TrimHolds(e: Edit, r: Request, o: Owner, b: int, k: Kind)
    requires Editing(e, r)
    ensures Holds(TrimLeft(e), o, b, k) ==> Holds(e.done, o, b, k)
    ensures !InReq(e.req, o, b) || (o == r.owner && k == r.kind) ==> Holds(e.done, o, b, k) ==> Holds(TrimLeft(e), o, b, k)
  {
    if e.left.Passed? {
      HoldsSet(e.done, e.left.at, e.done[e.left.at].(end := e.req.start - 1), o, b, k);
    }
  }

  /** The list at the end, and the caller's own lock in it. */
  lemma EndHolding(list: seq<Lock>, e: Edit, r: Request, id1: nat, id2: nat, o: Owner, b: int, k: Kind)
    requires Editing(e, r) && (StopsBefore(e, r) || StopsAtRight(e, r))
    requires Holding(list, r, e.done + e.todo, e.req, o, b, k)
    ensures var list' := Finish(Walk(e), id1, id2).list;
            && Walk(e).req == e.req && Holding(list, r, list', e.req, o, b, k)
            && (InReq(e.req, o, b) && k == r.kind != Unlock ==> Holds(list', o, b, k))
  {
    hide Walk, Finish, TrimLeft, Holds;
    TrimHolds(e, r, o, b, k);
    CallerHolds(e, r, o, b, k);
    if Ins(e, id1) != [] { HoldsOne(Ins(e, id1)[0], o, b, k); } else { HoldsNone(o, b, k); }
    if StopsBefore(e, r) {
      EndBefore(e, r, id1, id2);
      HoldsBetween(TrimLeft(e), Ins(e, id1), e.todo, o, b, k);
      HoldsConcat(e.done, e.todo, o, b, k);
    } else {
      EndRight(e, r, id1, id2);
      HoldsAll(e, o, b, k);
      HoldsBetween(Passing(e), Pieces(e, id1, id2), e.todo[1..], o, b, k);
      PiecesHold(e, r, id1, id2, o, b, k);
    }
  }

  lemma HoldsNone(o: Owner, b: int, k: Kind)
    ensures !Holds([], o, b, k)
  {
  }

  /** The lock that has taken the caller's place covers its range. */
  lemma CallerHolds(e: Edit, r: Request, o: Owner, b: int, k: Kind)
    requires Editing(e, r)
    ensures InReq(e.req, o, b) && k == r.kind && e.caller.Node? ==> Holds(e.done, o, b, k)
  {
    if e.caller.Node? { assert Is(e.done[e.caller.at], r.owner, b, r.kind) <==> e.req.start <= b <= e.req.end; }
  }

  lemma PiecesHold(e: Edit, r: Request, id1: nat, id2: nat, o: Owner, b: int, k: Kind)
    requires Editing(e, r) && StopsAtRight(e, r)
    ensures Holds(Pieces(e, id1, id2), o, b, k) <==>
            || Holds(Ins(e, id1), o, b, k)
            || (Is(e.todo[0], o, b, k) && !(e.req.start <= b <= e.req.end))
  {
    var fl := e.todo[0];
    assert Proper(fl);
    var left := if fl.start < e.req.start then [fl.(id := id2, end := e.req.start - 1)] else [];
    var right := fl.(start := Succ(e.req.end));
    HoldsBetween(left, Ins(e, id1), [right], o, b, k);
    HoldsOne(right, o, b, k);
    if left != [] { HoldsOne(left[0], o, b, k); }
  }

  lemma {:induction false} WalkHolding(list: seq<Lock>, e: Edit, r: Request, id1: nat, id2: nat, o: Owner, b: int, k: Kind)
    requires Editing(e, r) && Holding(list, r, e.done + e.todo, e.req, o, b, k)
    requires Holding(list, r, e.done + e.todo, e.req, o, b, r.kind)
    ensures var list', req := Finish(Walk(e), id1, id2).list, Walk(e).req;
            && Holding(list, r, list', req, o, b, k) && (r.kind == Unlock ==> req == r)
            && (InReq(req, o, b) && k == r.kind != Unlock ==> Holds(list', o, b, k))
    decreases |e.todo|
  {
    hide Holding, Finish, Leaves, Holds;
    if StopsBefore(e, r) || StopsAtRight(e, r) {
      EndHolding(list, e, r, id1, id2, o, b, k);
    } else {
      RoundEdits(e, r, r);
      RoundHolding(list, e, r, o, b, k);
      RoundHolding(list, e, r, o, b, r.kind);
      WalkHolding(list, OneRound(e).e, r, id1, id2, o, b, k);
    }
  }

  // ---- any list

  /** The caller has locks of one type only on each byte; they may overlap and stand in any order. */
  ghost predicate Single(list: seq<Lock>, o: Owner) {
    forall b, k1, k2 :: Holds(list, o, b, k1) && Holds(list, o, b, k2) ==> k1 == k2
  }

  lemma CanonicalIsSingle(list: seq<Lock>, o: Owner)
    requires Canonical(list)
    ensures AllProper(list) && Single(list, o)
  {
    forall i | 0 <= i < |list| ensures Proper(list[i]) { assert WellFormed(list[i]); }
    forall b, k1, k2 | Holds(list, o, b, k1) && Holds(list, o, b, k2) ensures k1 == k2 {
      HoldsIsAt(list, o, b, k1);
      HoldsIsAt(list, o, b, k2);
    }
  }

  lemma SuffixProper(list: seq<Lock>, n: nat)
    requires AllProper(list) && n <= |list|
    ensures AllProper(list[n..])
  {
    forall i | 0 <= i < |list[n..]| ensures Proper(list[n..][i]) { assert list[n..][i] == list[n + i]; }
  }

  lemma PrefixMisses(s: seq<Lock>, r: Request)
    requires NotOwnedBy(s, r.owner)
    ensures forall i :: 0 <= i < |s| ==> !Other(s[i], r)
  {
  }

  lemma StartEditing(list: seq<Lock>, r: Request, w: Request)
    requires AllProper(list) && ValidRequest(r) && SameCaller(r, w)
    ensures var e := Start(list, r);
            && e.done + e.todo == list && e.todo == list[Skip(list, r.owner)..] && e.req == r && Editing(e, r)
            && !Missed(e, w) && !Pending(e, w)
  {
    hide AllProper, NotOwnedBy, Skip, Other;
    var a := Skip(list, r.owner);
    assert list == list[..a] + list[a..];
    SuffixProper(list, a);
    PrefixMisses(list[..a], w);
  }

  /**
   On any list and for any request, the caller holds the type asked for on the whole range, and no other type on it
   if and only if the loop leaves none there.
   */
  lemma GrantOnRange(list: seq<Lock>, r: Request, id1: nat, id2: nat)
    requires AllProper(list) && ValidRequest(r)
    ensures var list' := Apply(list, r, id1, id2).list;
            && (r.kind != Unlock ==> forall b :: r.start <= b <= r.end ==> Holds(list', r.owner, b, r.kind))
            && (LeavesNone(list, r) <==> forall b, k :: r.start <= b <= r.end && Holds(list', r.owner, b, k) ==> k == r.kind)
  {
    hide Walk, Finish, Skip, Holds, LeavesOther, Editing;
    var e, list' := Start(list, r), Apply(list, r, id1, id2).list;
    StartEditing(list, r, r);
    WalkReach(e, r);
    WalkLeaves(e, r, r, id1, id2);
    OtherIsHeld(list', r);
    forall b | r.start <= b <= r.end && r.kind != Unlock ensures Holds(list', r.owner, b, r.kind) {
      WalkHolding(list, e, r, id1, id2, r.owner, b, r.kind);
    }
  }

  /** A lock of another type in the range means a byte of the range that is held that way. */
  lemma OtherIsHeld(list: seq<Lock>, r: Request)
    requires r.start <= r.end
    ensures AnyOther(list, r) <==> exists b, k :: r.start <= b <= r.end && Holds(list, r.owner, b, k) && k != r.kind
  {
    if i :| 0 <= i < |list| && Other(list[i], r) {
      var b := Max(list[i].start, r.start);
      assert Covers(list[i], b) && Holds(list, r.owner, b, list[i].kind);
    }
  }

  lemma NoUnlockLocks(list: seq<Lock>, r: Request, id1: nat, id2: nat, b: int)
    requires AllProper(list) && ValidRequest(r)
    ensures !Holds(list, r.owner, b, Unlock) && !Holds(Apply(list, r, id1, id2).list, r.owner, b, Unlock)
  {
    hide Walk, Finish, Skip, Editing;
    StartEditing(list, r, r);
    WalkHolding(list, Start(list, r), r, id1, id2, r.owner, b, Unlock);
    assert forall i :: 0 <= i < |list| ==> Proper(list[i]);
  }

  /** On the bytes the request grows to, the other type stays exactly where a lock of it is left. */
  lemma GrantOnReach(list: seq<Lock>, r: Request, id1: nat, id2: nat, b: int)
    requires AllProper(list) && ValidRequest(r) && r.kind != Unlock
    requires InReq(Reach(list[Skip(list, r.owner)..], r), r.owner, b)
    ensures Holds(Apply(list, r, id1, id2).list, r.owner, b, OtherKind(r.kind)) <==>
            LeavesOther(list[Skip(list, r.owner)..], r, Byte(r, b), false)
  {
    hide Walk, Finish, Skip, Holds, LeavesOther, Editing, Reach;
    var e, list' := Start(list, r), Apply(list, r, id1, id2).list;
    StartEditing(list, r, Byte(r, b));
    WalkReach(e, r);
    WalkLeaves(e, r, Byte(r, b), id1, id2);
    OtherIsHeld(list', Byte(r, b));
    NoUnlockLocks(list, r, id1, id2, b);
  }

  /**
   Outside the range nothing is gained; what is lost is the other type, on those bytes the request grows to on which no
   lock of it is left.
   */
  lemma GrantOutside(list: seq<Lock>, r: Request, id1: nat, id2: nat, o: Owner, b: int, k: Kind)
    requires AllProper(list) && ValidRequest(r) && !InReq(r, o, b)
    ensures var s := list[Skip(list, r.owner)..];
            Holds(Apply(list, r, id1, id2).list, o, b, k) <==>
            && Holds(list, o, b, k)
            && (InReq(Reach(s, r), o, b) && k == OtherKind(r.kind) ==> LeavesOther(s, r, Byte(r, b), false))
    ensures InReq(Reach(list[Skip(list, r.owner)..], r), o, b) ==>
              o == r.owner && r.kind != Unlock && Holds(list, o, b, r.kind)
  {
    hide Walk, Finish, Skip, Holds, Editing, LeavesOther, Reach;
    StartEditing(list, r, r);
    WalkHolding(list, Start(list, r), r, id1, id2, o, b, k);
    WalkReach(Start(list, r), r);
    if InReq(Reach(list[Skip(list, r.owner)..], r), o, b) {
      NoUnlockLocks(list, r, id1, id2, b);
      GrantOnReach(list, r, id1, id2, b);
    }
  }

  /**
   The exact condition under which a request changes the caller's locks to the type asked for on exactly the bytes
   asked for, and leaves every other byte and owner as it was, on any list.
   */
  lemma GrantExactIff(list: seq<Lock>, r: Request, id1: nat, id2: nat)
    requires AllProper(list) && ValidRequest(r)
    ensures Exact(list, r, Apply(list, r, id1, id2).list) <==> LeavesNone(list, r) && KeepsOutside(list, r)
  {
    hide Walk, Finish, Skip, Holds, Apply, LeavesNone, LeavesOther, Reach;
    var s, list' := list[Skip(list, r.owner)..], Apply(list, r, id1, id2).list;
    GrantOnRange(list, r, id1, id2);
    if Exact(list, r, list') {
      ExactLeavesNone(list, r, list');
      forall b | InReq(Reach(s, r), r.owner, b) && !InReq(r, r.owner, b) && Holds(list, r.owner, b, OtherKind(r.kind))
        ensures LeavesOther(s, r, Byte(r, b), false)
      {
        GrantOutside(list, r, id1, id2, r.owner, b, OtherKind(r.kind));
        assert Holds(list', r.owner, b, OtherKind(r.kind)) <==> ShouldHold(list, r, r.owner, b, OtherKind(r.kind));
      }
    } else {
      var o, b, k :| !(Holds(list', o, b, k) <==> ShouldHold(list, r, o, b, k));
      if InReq(r, o, b) {
        NoUnlockLocks(list, r, id1, id2, b);
      } else {
        GrantOutside(list, r, id1, id2, o, b, k);
        assert Holds(list, r.owner, b, OtherKind(r.kind)) && !LeavesOther(s, r, Byte(r, b), false);
      }
    }
  }

  lemma ExactLeavesNone(list: seq<Lock>, r: Request, list': seq<Lock>)
    requires Exact(list, r, list')
    ensures forall b, k :: r.start <= b <= r.end && Holds(list', r.owner, b, k) ==> k == r.kind
  {
    hide Holds;
    forall b, k | r.start <= b <= r.end && Holds(list', r.owner, b, k) ensures k == r.kind {
      assert ShouldHold(list, r, r.owner, b, k);
    }
  }

  /** Unlocks, and requests of a caller whose types do not overlap, cost no byte outside the range. */
  lemma SingleKeepsOutside(list: seq<Lock>, r: Request)
    requires AllProper(list) && ValidRequest(r) && (r.kind == Unlock || Single(list, r.owner))
    ensures KeepsOutside(list, r)
  {
    hide Walk, Finish, Skip, Holds, LeavesOther, Reach;
    var s := list[Skip(list, r.owner)..];
    forall b | InReq(Reach(s, r), r.owner, b) && !InReq(r, r.owner, b) ensures !Holds(list, r.owner, b, OtherKind(r.kind)) {
      GrantOutside(list, r, 0, 1, r.owner, b, r.kind);
    }
  }

  /** On a list in normal form, nothing is left exactly if the wrap-around hides nothing. */
  lemma NormalLeavesNone(list: seq<Lock>, r: Request)
    requires Canonical(list) && ValidRequest(r)
    ensures LeavesNone(list, r) <==> NothingHidden(list, r)
  {
    hide Canonical, Single, LeavesNone, KeepsOutside, NothingHidden, Apply, Exact;
    CanonicalIsSingle(list, r.owner);
    SingleKeepsOutside(list, r);
    GrantExactIff(list, r, 0, 1);
    ApplyExactIff(list, r, 0, 1);
  }
}
