/**
 How `posix_lock_file` edits the lock list of an inode once a request has been granted,
 and the proof that the edit does what the request asks for.
 */
module LockEdit {
  import opened Basics
  import opened FileLocks

  /** The lock to be shortened from the right: none, one already passed, or the one at `before`. */
  datatype Left = NoLeft | Passed(at: nat) | AtBefore

  /** The caller's own structure, or the list node that has taken its place. */
  datatype Caller = Own | Node(at: nat)

  /**
   The state of the loop over the caller's locks. `before` points between `done` and `todo`;
   `woken` are the locks whose sleepers have been woken.
   */
  datatype Edit = Edit(
    done: seq<Lock>, todo: seq<Lock>, req: Request, added: bool,
    caller: Caller, left: Left, right: bool, woken: set<nat>)

  function SetRange(s: seq<Lock>, c: Caller, start: int, end: int): (t: seq<Lock>)
    ensures |t| == |s|
  {
    if c.Node? && c.at < |s| then s[c.at := s[c.at].(start := start, end := end)] else s
  }

  /** Step over the current lock. */
  function Next(e: Edit): Edit
    requires e.todo != []
  {
    e.(done := e.done + [e.todo[0]], todo := e.todo[1..])
  }

  /** The current lock and the caller are of one type and touch: make one lock of both. */
  function Merge(e: Edit): Edit
    requires e.todo != []
  {
    var fl := e.todo[0];
    var start := Min(fl.start, e.req.start);
    var end := Max(fl.end, e.req.end);
    var req := e.req.(start := start, end := end);
    if e.added then
      e.(req := req, done := SetRange(e.done, e.caller, start, end),
         todo := e.todo[1..], woken := e.woken + {fl.id})
    else
      e.(req := req, done := e.done + [fl.(start := start, end := end)], todo := e.todo[1..],
         caller := Node(|e.done|), added := true)
  }

  /** Delete the current lock, which the caller covers. */
  function Drop(e: Edit): Edit
    requires e.todo != []
  {
    e.(todo := e.todo[1..], woken := e.woken + {e.todo[0].id})
  }

  /** Reuse the current lock, which the caller covers, for the caller's lock. */
  function Retype(e: Edit): Edit
    requires e.todo != []
  {
    var fl := e.todo[0].(kind := e.req.kind, start := e.req.start, end := e.req.end);
    e.(done := e.done + [fl], todo := e.todo[1..], woken := e.woken + {fl.id},
       caller := Node(|e.done|), added := true)
  }

  /** One round of the loop: go on with the next lock, or break out. */
  datatype Round = Go(e: Edit) | Break(e: Edit)

  /** The current lock has the type of the caller. */
  function SameType(e: Edit): Round
    requires e.todo != []
  {
    var fl := e.todo[0];
    if fl.end < e.req.start - 1 then Go(Next(e))
    else if fl.start > Succ(e.req.end) then Break(e)
    else Go(Merge(e))
  }

  function OtherType(e: Edit): Round
    requires e.todo != []
  {
    var fl := e.todo[0];
    if fl.end < e.req.start then Go(Next(e))
    else if fl.start > e.req.end then Break(e)
    else
      var e1 := e.(added := e.added || e.req.kind == Unlock);
      if fl.end > e.req.end then
        Break(e1.(left := if fl.start < e.req.start then AtBefore else e.left, right := true))
      else if fl.start < e.req.start then Go(Next(e1.(left := Passed(|e.done|))))
      else if e1.added then Go(Drop(e1))
      else Go(Retype(e1))
  }

  function OneRound(e: Edit): (m: Round)
    requires e.todo != []
    ensures m.Go? ==> |m.e.todo| == |e.todo| - 1
  {
    if e.todo[0].kind == e.req.kind then SameType(e) else OtherType(e)
  }

  /** The loop over the locks of the caller. */
  function Walk(e: Edit): Edit
    decreases |e.todo|
  {
    if e.todo == [] || e.todo[0].owner != e.req.owner then e
    else
      match OneRound(e)
      case Go(e1) => Walk(e1)
      case Break(e1) => e1
  }

  datatype Result = Result(list: seq<Lock>, woken: set<nat>)

  function TrimLeft(e: Edit): seq<Lock> {
    if e.left.Passed? && e.left.at < |e.done| then
      e.done[e.left.at := e.done[e.left.at].(end := e.req.start - 1)]
    else e.done
  }

  function LeftIds(e: Edit): set<nat> {
    if e.left.Passed? && e.left.at < |e.done| then {e.done[e.left.at].id} else {}
  }

  /** What follows the loop: insert the new lock, split or shorten the locks at its ends. */
  function Finish(e: Edit, id1: nat, id2: nat): Result {
    if !e.added && e.req.kind == Unlock then Result(e.done + e.todo, e.woken)
    else
      var ins := if e.added then [] else [Lock(id1, e.req.owner, e.req.kind, e.req.start, e.req.end)];
      if e.right && e.todo != [] then
        var r := e.todo[0];
        var split := if e.left.AtBefore? then [r.(id := id2, end := e.req.start - 1)] else [];
        Result(TrimLeft(e) + split + ins + [r.(start := Succ(e.req.end))] + e.todo[1..],
               e.woken + {r.id} + LeftIds(e))
      else
        Result(TrimLeft(e) + ins + e.todo, e.woken + LeftIds(e))
  }

  /** The number of locks before the first one of owner `o`. */
  function Skip(list: seq<Lock>, o: Owner): (n: nat)
    ensures n <= |list| && NotOwnedBy(list[..n], o)
    ensures n < |list| ==> list[n].owner == o
  {
    if list == [] || list[0].owner == o then 0 else 1 + Skip(list[1..], o)
  }

  function Start(list: seq<Lock>, r: Request): Edit {
    var a := Skip(list, r.owner);
    Edit(list[..a], list[a..], r, false, Own, NoLeft, false, {})
  }

  /** The list after `r` has been granted, and the locks whose sleepers are woken. */
  function Apply(list: seq<Lock>, r: Request, id1: nat, id2: nat): Result {
    Finish(Walk(Start(list, r)), id1, id2)
  }

  /**
   The test at locks.c:937 adds one to the end of the request, which wraps around when the
   request reaches `OFFSET_MAX`; then no lock of the same type is merged. This is harmless
   exactly when there is none to merge with.
   */
  predicate MergeSafe(list: seq<Lock>, r: Request) {
    r.end < OFFSET_MAX || r.kind == Unlock ||
    forall i :: 0 <= i < |list| && list[i].owner == r.owner && list[i].kind == r.kind
                ==> list[i].end < r.start - 1
  }

  // ---- the list as what precedes the owner's locks, the owner's locks, and what follows

  /** How many leading locks belong to `o`. */
  function Leading(list: seq<Lock>, o: Owner): (n: nat)
    ensures n <= |list| && OwnedBy(list[..n], o)
    ensures n < |list| ==> list[n].owner != o
  {
    if list == [] || list[0].owner != o then 0 else 1 + Leading(list[1..], o)
  }

  predicate Parts(list: seq<Lock>, o: Owner, pre: seq<Lock>, seg: seq<Lock>, post: seq<Lock>) {
    && list == pre + seg + post
    && NotOwnedBy(pre, o) && OwnedBy(seg, o) && NotOwnedBy(post, o)
    && (seg == [] ==> post == [])
  }

  lemma PartsOf(list: seq<Lock>, o: Owner)
    returns (pre: seq<Lock>, seg: seq<Lock>, post: seq<Lock>)
    requires Contiguous(list)
    ensures Parts(list, o, pre, seg, post)
    ensures pre == list[..Skip(list, o)] && seg + post == list[Skip(list, o)..]
  {
    var a := Skip(list, o);
    var n := Leading(list[a..], o);
    pre, seg, post := list[..a], list[a..a + n], list[a + n..];
    forall i | 0 <= i < n ensures seg[i].owner == o { assert seg[i] == list[a..][..n][i]; }
    if n < |list[a..]| {
      assert list[a..][n] == list[a + n];
      NoneFollow(list, o, a, a + n);
    }
  }

  lemma NoneFollow(list: seq<Lock>, o: Owner, a: nat, b: nat)
    requires Contiguous(list) && a < b < |list| && list[a].owner == o && list[b].owner != o
    ensures NotOwnedBy(list[b..], o)
  {
    forall k | 0 <= k < |list[b..]| ensures list[b..][k].owner != o {
      assert list[b..][k] == list[b + k];
      if k > 0 { assert Encloses(list, a, b, b + k); }
    }
  }

  // ---- the invariant of the loop

  /** `l` is so far below the request that it is left alone. */
  predicate Below(l: Lock, r: Request) {
    l.end < r.start && (l.kind == r.kind ==> l.end < r.start - 1)
  }

  function Ids(s: seq<Lock>): set<nat> {
    set l | l in s :: l.id
  }

  /** The first `p` locks of the segment: below the request, except a `left` at the end. */
  predicate PrefixInv(e: Edit, base: nat, seg: seq<Lock>, r: Request, p: nat)
    requires p <= |seg|
  {
    && (forall k :: 0 <= k < p - 1 ==> Below(seg[k], r))
    && (p > 0 && !e.left.Passed? ==> Below(seg[p - 1], r))
    && (e.left.Passed? ==>
          && p > 0 && e.left.at == base + p - 1
          && seg[p - 1].kind != r.kind
          && seg[p - 1].start < r.start <= seg[p - 1].end <= r.end)
  }

  /** The range of the caller after it has absorbed the locks `p..j`. */
  predicate RangeInv(req: Request, seg: seq<Lock>, r: Request, p: nat, j: nat)
    requires p < j <= |seg|
  {
    && req.owner == r.owner && req.kind == r.kind
    && req.start <= r.start && r.end <= req.end
    && ValidRequest(req)
    && (forall k :: p <= k < j ==> req.start <= seg[k].start && seg[k].end <= req.end)
    && (req.start < r.start ==>
          req.start == seg[p].start && seg[p].kind == r.kind && r.start - 1 <= seg[p].end)
    && (r.end < req.end ==>
          req.end == seg[j - 1].end && seg[j - 1].kind == r.kind && seg[j - 1].start <= r.end + 1)
    && (seg[p].kind == r.kind ==> r.start - 1 <= seg[p].end)
  }

  /** The loop stands at lock `j` of the segment, having kept the first `p`. */
  predicate Inv(e: Edit, pre: seq<Lock>, seg: seq<Lock>, post: seq<Lock>, r: Request, p: nat, j: nat) {
    && p <= j <= |seg|
    && e.todo == seg[j..] + post
    && PrefixInv(e, |pre|, seg, r, p)
    && (e.left.Passed? && r.kind == Unlock ==> e.added)
    && (!e.added ==>
          p == j && e.done == pre + seg[..p] && e.req == r && e.woken == {} && e.caller == Own)
    && (e.added && r.kind == Unlock ==>
          && e.done == pre + seg[..p] && e.req == r && e.caller == Own
          && (forall k :: p <= k < j ==> r.start <= seg[k].start && seg[k].end <= r.end)
          && e.woken == Ids(seg[p..j]))
    && (e.added && r.kind != Unlock ==>
          && p < j && RangeInv(e.req, seg, r, p, j)
          && e.caller == Node(|pre| + p)
          && e.done == pre + seg[..p] + [Lock(seg[p].id, r.owner, r.kind, e.req.start, e.req.end)]
          && e.woken == Ids(seg[p + 1..j]) + (if seg[p].kind == r.kind then {} else {seg[p].id}))
  }

  predicate Running(e: Edit) {
    !e.right && !e.left.AtBefore?
  }

  /** Why the loop stopped at lock `j`. */
  predicate Stopped(e: Edit, seg: seq<Lock>, j: nat)
    requires j <= |seg|
  {
    if e.right then
      && j < |seg| && seg[j].kind != e.req.kind
      && seg[j].start <= e.req.end < seg[j].end && e.req.start <= seg[j].end
      && (e.left.AtBefore? <==> seg[j].start < e.req.start)
      && (e.req.kind == Unlock ==> e.added)
    else
      && !e.left.AtBefore?
      && (j < |seg| ==>
            && e.req.end < seg[j].start
            && (seg[j].kind == e.req.kind ==> e.req.end + 1 < seg[j].start))
  }

  /** What the proof knows about the segment and the request throughout. */
  predicate Given(seg: seq<Lock>, post: seq<Lock>, r: Request) {
    && AllWellFormed(seg) && Sorted(seg) && OwnedBy(seg, r.owner) && NotOwnedBy(post, r.owner)
    && ValidRequest(r) && MergeSafe(seg, r)
  }

  lemma IdsSnoc(seg: seq<Lock>, a: nat, b: nat)
    requires a <= b < |seg|
    ensures Ids(seg[a..b + 1]) == Ids(seg[a..b]) + {seg[b].id}
  {
    SliceSnoc(seg, a, b);
  }

  /** The caller is in the list already, and takes in the lock at `j`. */
  lemma MergeMoreInv(e: Edit, pre: seq<Lock>, seg: seq<Lock>, post: seq<Lock>, r: Request, p: nat, j: nat)
    requires Given(seg, post, r) && Inv(e, pre, seg, post, r, p, j) && Running(e) && e.added
    requires j < |seg| && seg[j].kind == r.kind
    requires e.req.start - 1 <= seg[j].end && seg[j].start <= e.req.end + 1
    requires r.end < OFFSET_MAX
    ensures Inv(Merge(e), pre, seg, post, r, p, j + 1) && Running(Merge(e))
  {
    hide Ids, MergeSafe;
    assert e.todo[0] == seg[j] && e.todo[1..] == seg[j + 1..] + post;
    assert WellFormed(seg[j]);
    IdsSnoc(seg, p + 1, j);
    assert Apart(seg[p], seg[j]);
  }

  lemma MergeInv(e: Edit, pre: seq<Lock>, seg: seq<Lock>, post: seq<Lock>, r: Request, p: nat, j: nat)
    requires Given(seg, post, r) && Inv(e, pre, seg, post, r, p, j) && Running(e)
    requires j < |seg| && seg[j].kind == r.kind
    requires e.req.start - 1 <= seg[j].end && seg[j].start <= e.req.end + 1
    requires r.end < OFFSET_MAX
    ensures Inv(Merge(e), pre, seg, post, r, p, j + 1) && Running(Merge(e))
  {
    if e.added {
      MergeMoreInv(e, pre, seg, post, r, p, j);
    } else {
      assert e.todo[0] == seg[j] && e.todo[1..] == seg[j + 1..] + post;
      assert WellFormed(seg[j]);
      assert seg[p + 1..j + 1] == [];
    }
  }

  lemma RetypeInv(e: Edit, pre: seq<Lock>, seg: seq<Lock>, post: seq<Lock>, r: Request, p: nat, j: nat)
    requires Given(seg, post, r) && Inv(e, pre, seg, post, r, p, j) && Running(e) && !e.added
    requires j < |seg| && seg[j].kind != r.kind && r.kind != Unlock
    requires r.start <= seg[j].start && seg[j].end <= r.end
    ensures Inv(Retype(e), pre, seg, post, r, j, j + 1) && Running(Retype(e))
  {
  }

  lemma DropInv(e: Edit, pre: seq<Lock>, seg: seq<Lock>, post: seq<Lock>, r: Request, p: nat, j: nat)
    requires Given(seg, post, r) && Inv(e, pre, seg, post, r, p, j) && Running(e) && e.added
    requires j < |seg| && seg[j].kind != r.kind
    requires e.req.start <= seg[j].start && seg[j].end <= e.req.end
    ensures Inv(Drop(e), pre, seg, post, r, p, j + 1) && Running(Drop(e))
  {
    hide Ids, MergeSafe;
    assert e.todo[0] == seg[j] && e.todo[1..] == seg[j + 1..] + post;
    IdsSnoc(seg, p, j);
    if r.kind != Unlock {
      IdsSnoc(seg, p + 1, j);
      assert Apart(seg[j - 1], seg[j]);
    }
  }

  /** An unlock counts as added before it drops its first lock. */
  lemma AddedInv(e: Edit, pre: seq<Lock>, seg: seq<Lock>, post: seq<Lock>, r: Request, p: nat, j: nat)
    requires Inv(e, pre, seg, post, r, p, j) && (e.added || r.kind == Unlock)
    ensures Inv(e.(added := true), pre, seg, post, r, p, j)
  {
  }

  /** Once the caller has met a lock it takes in, or its `left`, no later lock is below it. */
  lemma NoneBelow(e: Edit, pre: seq<Lock>, seg: seq<Lock>, post: seq<Lock>, r: Request, p: nat, j: nat)
    requires Given(seg, post, r) && Inv(e, pre, seg, post, r, p, j)
    requires j < |seg| && (e.left.Passed? || p < j)
    ensures e.req.start <= seg[j].start <= seg[j].end
  {
    assert WellFormed(seg[j]);
    if p < j {
      assert Apart(seg[p], seg[j]) && WellFormed(seg[p]);
    } else {
      assert Apart(seg[p - 1], seg[j]);
    }
  }

  lemma NextInv(e: Edit, pre: seq<Lock>, seg: seq<Lock>, post: seq<Lock>, r: Request, p: nat, j: nat)
    requires Given(seg, post, r) && Inv(e, pre, seg, post, r, p, j) && Running(e)
    requires j < |seg| && Below(seg[j], e.req)
    ensures Inv(Next(e), pre, seg, post, r, j + 1, j + 1) && Running(Next(e))
  {
  }

  lemma LeftInv(e: Edit, pre: seq<Lock>, seg: seq<Lock>, post: seq<Lock>, r: Request, p: nat, j: nat)
    requires Given(seg, post, r) && Inv(e, pre, seg, post, r, p, j) && Running(e)
    requires j < |seg| && seg[j].kind != r.kind && seg[j].start < e.req.start <= seg[j].end <= e.req.end
    ensures var e1 := Next(e.(added := e.added || r.kind == Unlock, left := Passed(|e.done|)));
            Inv(e1, pre, seg, post, r, j + 1, j + 1) && Running(e1)
  {
    if e.left.Passed? || p < j { NoneBelow(e, pre, seg, post, r, p, j); assert false; }
    assert e.todo[0] == seg[j] && e.todo[1..] == seg[j + 1..] + post;
    assert seg[..j + 1] == seg[..j] + [seg[j]];
    assert seg[j + 1..j + 1] == [];
  }

  lemma RightInv(e: Edit, pre: seq<Lock>, seg: seq<Lock>, post: seq<Lock>, r: Request, p: nat, j: nat)
    requires Given(seg, post, r) && Inv(e, pre, seg, post, r, p, j) && Running(e)
    requires j < |seg| && seg[j].kind != r.kind && e.req.start <= seg[j].end
    requires seg[j].start <= e.req.end < seg[j].end
    ensures var e1 := e.(added := e.added || r.kind == Unlock, right := true,
                         left := if seg[j].start < e.req.start then AtBefore else e.left);
            Inv(e1, pre, seg, post, r, p, j) && Stopped(e1, seg, j)
  {
  }

  predicate AfterRound(m: Round, pre: seq<Lock>, seg: seq<Lock>, post: seq<Lock>, r: Request, p: nat, j: nat) {
    && Inv(m.e, pre, seg, post, r, p, j)
    && if m.Go? then Running(m.e) else Stopped(m.e, seg, j)
  }

  /** The caller keeps its kind, and stands at lock `j`. */
  lemma ReqKind(e: Edit, pre: seq<Lock>, seg: seq<Lock>, post: seq<Lock>, r: Request, p: nat, j: nat)
    requires Inv(e, pre, seg, post, r, p, j) && j < |seg|
    ensures e.todo != [] && e.todo[0] == seg[j] && e.req.kind == r.kind
    ensures !e.added ==> e.req == r
  {
  }

  lemma SameTypeInv(
      e: Edit, pre: seq<Lock>, seg: seq<Lock>, post: seq<Lock>, r: Request, p: nat, j: nat)
    returns (p': nat, j': nat)
    requires Given(seg, post, r) && Inv(e, pre, seg, post, r, p, j) && Running(e)
    requires j < |seg| && seg[j].kind == r.kind
    ensures e.todo != [] && AfterRound(SameType(e), pre, seg, post, r, p', j')
  {
    hide Given, Inv, Next, Merge;
    p', j' := p, j;
    var fl := seg[j];
    ReqKind(e, pre, seg, post, r, p, j);
    if fl.end < e.req.start - 1 {
      assert SameType(e) == Go(Next(e));
      NextInv(e, pre, seg, post, r, p, j);
      p', j' := j + 1, j + 1;
    } else {
      EndBelowMax(e, pre, seg, post, r, p, j);
      if fl.start <= e.req.end + 1 {
        assert SameType(e) == Go(Merge(e));
        MergeInv(e, pre, seg, post, r, p, j);
        j' := j + 1;
      } else {
        assert SameType(e) == Break(e) && Stopped(e, seg, j);
      }
    }
  }

  lemma OtherTypeInv(
      e: Edit, pre: seq<Lock>, seg: seq<Lock>, post: seq<Lock>, r: Request, p: nat, j: nat)
    returns (p': nat, j': nat)
    requires Given(seg, post, r) && Inv(e, pre, seg, post, r, p, j) && Running(e)
    requires j < |seg| && seg[j].kind != r.kind
    ensures e.todo != [] && AfterRound(OtherType(e), pre, seg, post, r, p', j')
  {
    hide Given, Inv, Next, Drop, Retype;
    p', j' := p, j;
    var fl := seg[j];
    ReqKind(e, pre, seg, post, r, p, j);
    if fl.end < e.req.start {
      NextInv(e, pre, seg, post, r, p, j);
      p', j' := j + 1, j + 1;
    } else if e.req.end < fl.start {
    } else if e.req.end < fl.end {
      RightInv(e, pre, seg, post, r, p, j);
    } else if fl.start < e.req.start {
      LeftInv(e, pre, seg, post, r, p, j);
      p', j' := j + 1, j + 1;
    } else if e.added || r.kind == Unlock {
      AddedInv(e, pre, seg, post, r, p, j);
      DropInv(e.(added := true), pre, seg, post, r, p, j);
      j' := j + 1;
    } else {
      assert OtherType(e) == Go(Retype(e));
      RetypeInv(e, pre, seg, post, r, p, j);
      p', j' := j, j + 1;
    }
  }

  lemma {:induction false} WalkInv(
      e: Edit, pre: seq<Lock>, seg: seq<Lock>, post: seq<Lock>, r: Request, p: nat, j: nat)
    returns (p': nat, j': nat)
    requires Given(seg, post, r) && Inv(e, pre, seg, post, r, p, j) && Running(e)
    ensures Inv(Walk(e), pre, seg, post, r, p', j') && Stopped(Walk(e), seg, j')
    decreases |e.todo|
  {
    if j == |seg| {
      p', j' := p, j;
      assert e.todo == post;
    } else {
      assert e.todo[0] == seg[j];
      if seg[j].kind == r.kind {
        p', j' := SameTypeInv(e, pre, seg, post, r, p, j);
      } else {
        p', j' := OtherTypeInv(e, pre, seg, post, r, p, j);
      }
      if OneRound(e).Go? {
        p', j' := WalkInv(OneRound(e).e, pre, seg, post, r, p', j');
      }
    }
  }

  /** Where two locks of one type are compared, the wrap-around does not show. */
  lemma EndBelowMax(e: Edit, pre: seq<Lock>, seg: seq<Lock>, post: seq<Lock>, r: Request, p: nat, j: nat)
    requires Given(seg, post, r) && Inv(e, pre, seg, post, r, p, j)
    requires j < |seg| && seg[j].kind == r.kind && e.req.start - 1 <= seg[j].end
    ensures r.end < OFFSET_MAX && e.req.end < OFFSET_MAX
  {
  }

  // ---- what the edit leaves of the owner's locks

  /** The locks that end up below the new one. */
  function Low(f: Edit, seg: seq<Lock>, p: nat, id2: nat): seq<Lock>
    requires p <= |seg| && (f.left.AtBefore? ==> p < |seg|)
  {
    if f.left.AtBefore? then seg[..p] + [seg[p].(id := id2, end := f.req.start - 1)]
    else if f.left.Passed? && p > 0 then seg[..p][p - 1 := seg[p - 1].(end := f.req.start - 1)]
    else seg[..p]
  }

  /** The new lock; unlocking makes none. */
  function Mid(f: Edit, seg: seq<Lock>, p: nat, id1: nat): seq<Lock>
    requires p <= |seg|
  {
    if f.req.kind == Unlock then []
    else
      var id := if f.added && p < |seg| then seg[p].id else id1;
      [Lock(id, f.req.owner, f.req.kind, f.req.start, f.req.end)]
  }

  /** The locks that end up above the new one. */
  function High(f: Edit, seg: seq<Lock>, j: nat): seq<Lock>
    requires j <= |seg| && (f.right ==> j < |seg|)
  {
    if f.right then seg[j..][0 := seg[j].(start := f.req.end + 1)] else seg[j..]
  }

  /** The loop has ended at lock `j` of the segment, having kept the first `p`. */
  predicate Ended(f: Edit, pre: seq<Lock>, seg: seq<Lock>, post: seq<Lock>, r: Request, p: nat, j: nat) {
    && Given(seg, post, r)
    && Inv(f, pre, seg, post, r, p, j)
    && Stopped(f, seg, j)
    && (f.left.AtBefore? ==> p == j && f.right)
  }

  function NewSegment(f: Edit, seg: seq<Lock>, p: nat, j: nat, id1: nat, id2: nat): seq<Lock>
    requires p <= j <= |seg| && (f.left.AtBefore? ==> p < |seg|) && (f.right ==> j < |seg|)
  {
    Low(f, seg, p, id2) + Mid(f, seg, p, id1) + High(f, seg, j)
  }

  /** The copy made of `right` when the request splits it. */
  function SplitOff(f: Edit, seg: seq<Lock>, j: nat, id2: nat): seq<Lock>
    requires f.left.AtBefore? ==> j < |seg|
  {
    if f.left.AtBefore? then [seg[j].(id := id2, end := f.req.start - 1)] else []
  }

  lemma InsertShape(
      f: Edit, pre: seq<Lock>, seg: seq<Lock>, post: seq<Lock>, r: Request, p: nat, j: nat,
      id1: nat, id2: nat)
    requires Ended(f, pre, seg, post, r, p, j)
    ensures TrimLeft(f) + SplitOff(f, seg, j, id2) + (if f.added then [] else Mid(f, seg, p, id1)) ==
            pre + Low(f, seg, p, id2) + Mid(f, seg, p, id1)
  {
  }

  lemma FinishShape(
      f: Edit, pre: seq<Lock>, seg: seq<Lock>, post: seq<Lock>, r: Request, p: nat, j: nat,
      id1: nat, id2: nat)
    requires Ended(f, pre, seg, post, r, p, j)
    ensures Finish(f, id1, id2).list == pre + NewSegment(f, seg, p, j, id1, id2) + post
  {
    var low, mid, high := Low(f, seg, p, id2), Mid(f, seg, p, id1), High(f, seg, j);
    InsertShape(f, pre, seg, post, r, p, j, id1, id2);
    RightShape(f, seg, post, j);
    assert f.right ==> f.req.end < OFFSET_MAX by { assert f.right ==> WellFormed(seg[j]); }
    FinishParts(f, id1, id2, SplitOff(f, seg, j, id2), if f.added then [] else mid, high + post);
    Regroup(pre, low, mid, high, post);
  }

  lemma Regroup(pre: seq<Lock>, low: seq<Lock>, mid: seq<Lock>, high: seq<Lock>, post: seq<Lock>)
    ensures pre + low + mid + (high + post) == pre + (low + mid + high) + post
  {
  }

  lemma RightShape(f: Edit, seg: seq<Lock>, post: seq<Lock>, j: nat)
    requires j <= |seg| && f.todo == seg[j..] + post && (f.right ==> j < |seg|)
    ensures f.right ==> f.todo[0] == seg[j] &&
                        High(f, seg, j) + post == [seg[j].(start := f.req.end + 1)] + f.todo[1..]
    ensures !f.right ==> High(f, seg, j) + post == f.todo
  {
  }

  lemma FinishParts(
      f: Edit, id1: nat, id2: nat, split: seq<Lock>, ins: seq<Lock>, rest: seq<Lock>)
    requires ins == if f.added || f.req.kind == Unlock then []
                    else [Lock(id1, f.req.owner, f.req.kind, f.req.start, f.req.end)]
    requires f.right ==>
               && f.todo != [] && f.req.end < OFFSET_MAX && (f.req.kind == Unlock ==> f.added)
               && rest == [f.todo[0].(start := f.req.end + 1)] + f.todo[1..]
               && split == if f.left.AtBefore? then [f.todo[0].(id := id2, end := f.req.start - 1)] else []
    requires !f.right ==> rest == f.todo && split == []
    requires !f.added && f.req.kind == Unlock ==> !f.left.Passed?
    ensures Finish(f, id1, id2).list == TrimLeft(f) + split + ins + rest
  {
  }

  lemma LowFacts(
      f: Edit, pre: seq<Lock>, seg: seq<Lock>, post: seq<Lock>, r: Request, p: nat, j: nat, id2: nat)
    requires Ended(f, pre, seg, post, r, p, j)
    ensures var low := Low(f, seg, p, id2);
            && AllWellFormed(low) && Sorted(low) && OwnedBy(low, r.owner)
            && forall i :: 0 <= i < |low| ==> Below(low[i], f.req)
  {
    var low := Low(f, seg, p, id2);
    forall i | 0 <= i < |low|
      ensures WellFormed(low[i]) && Below(low[i], f.req) && low[i].owner == r.owner
    {
      assert WellFormed(seg[i]) && seg[i].owner == r.owner;
      if i < p && p < j { assert Apart(seg[i], seg[p]); }
    }
    forall i, k | 0 <= i < k < |low|
      ensures Apart(low[i], low[k])
    {
      assert Apart(seg[i], seg[k]);
    }
  }

  /** `l` lies above the request and, if of its type, does not touch it. */
  predicate Above(l: Lock, r: Request) {
    r.end < l.start && (l.kind == r.kind ==> r.end + 1 < l.start)
  }

  lemma HighFacts(
      f: Edit, pre: seq<Lock>, seg: seq<Lock>, post: seq<Lock>, r: Request, p: nat, j: nat)
    requires Ended(f, pre, seg, post, r, p, j)
    ensures var high := High(f, seg, j);
            && AllWellFormed(high) && Sorted(high) && OwnedBy(high, r.owner)
            && forall i :: 0 <= i < |high| ==> Above(high[i], f.req)
  {
  }

  lemma JoinSorted(low: seq<Lock>, mid: seq<Lock>, high: seq<Lock>, req: Request)
    requires AllWellFormed(low) && Sorted(low) && OwnedBy(low, req.owner)
    requires AllWellFormed(high) && Sorted(high) && OwnedBy(high, req.owner)
    requires forall i :: 0 <= i < |low| ==> Below(low[i], req)
    requires forall i :: 0 <= i < |high| ==> Above(high[i], req)
    requires ValidRequest(req)
    requires |mid| <= 1 && forall i :: 0 <= i < |mid| ==>
               mid[i].owner == req.owner && mid[i].kind == req.kind && req.kind != Unlock
               && mid[i].start == req.start && mid[i].end == req.end
    ensures var s := low + mid + high; AllWellFormed(s) && Sorted(s) && OwnedBy(s, req.owner)
  {
  }

  lemma NewSegmentSorted(
      f: Edit, pre: seq<Lock>, seg: seq<Lock>, post: seq<Lock>, r: Request, p: nat, j: nat,
      id1: nat, id2: nat)
    requires Ended(f, pre, seg, post, r, p, j)
    ensures var s := NewSegment(f, seg, p, j, id1, id2);
            AllWellFormed(s) && Sorted(s) && OwnedBy(s, r.owner)
  {
    LowFacts(f, pre, seg, post, r, p, j, id2);
    HighFacts(f, pre, seg, post, r, p, j);
    JoinSorted(Low(f, seg, p, id2), Mid(f, seg, p, id1), High(f, seg, j), f.req);
  }

  // ---- what the new segment means

  lemma AtLow(
      f: Edit, pre: seq<Lock>, seg: seq<Lock>, post: seq<Lock>, r: Request, p: nat, j: nat,
      id2: nat, b: int)
    requires Ended(f, pre, seg, post, r, p, j)
    ensures At(Low(f, seg, p, id2), r.owner, b) == if b < f.req.start then At(seg, r.owner, b) else Unlock
  {
    var low := Low(f, seg, p, id2);
    LowFacts(f, pre, seg, post, r, p, j, id2);
    if b >= f.req.start {
      AtNone(low, r.owner, b);
    } else if At(seg, r.owner, b) != Unlock {
      var i := AtWitness(seg, r.owner, b);
      StartsAbove(f, pre, seg, post, r, p, j, i);
      AtIndex(low, i, b);
      AtIndex(seg, i, b);
    } else if At(low, r.owner, b) != Unlock {
      var i := AtWitness(low, r.owner, b);
      AtIndex(seg, i, b);
    }
  }

  /** A lock that starts below the new one is among those kept below it. */
  lemma StartsAbove(
      f: Edit, pre: seq<Lock>, seg: seq<Lock>, post: seq<Lock>, r: Request, p: nat, j: nat, i: nat)
    requires Ended(f, pre, seg, post, r, p, j)
    requires i < |seg|
    ensures seg[i].start < f.req.start ==> i < p || (i == p && f.left.AtBefore?)
  {
  }

  lemma AtHigh(
      f: Edit, pre: seq<Lock>, seg: seq<Lock>, post: seq<Lock>, r: Request, p: nat, j: nat, b: int)
    requires Ended(f, pre, seg, post, r, p, j)
    ensures At(High(f, seg, j), r.owner, b) == if f.req.end < b then At(seg, r.owner, b) else Unlock
  {
    var high := High(f, seg, j);
    HighFacts(f, pre, seg, post, r, p, j);
    if b <= f.req.end {
      AtNone(high, r.owner, b);
    } else if At(seg, r.owner, b) != Unlock {
      var i := AtWitness(seg, r.owner, b);
      EndsBelow(f, pre, seg, post, r, p, j, i);
      AtIndex(high, i - j, b);
      AtIndex(seg, i, b);
    } else if At(high, r.owner, b) != Unlock {
      var i := AtWitness(high, r.owner, b);
      AtIndex(seg, j + i, b);
    }
  }

  /** A lock that ends above the new one is among those kept above it. */
  lemma EndsBelow(
      f: Edit, pre: seq<Lock>, seg: seq<Lock>, post: seq<Lock>, r: Request, p: nat, j: nat, i: nat)
    requires Ended(f, pre, seg, post, r, p, j)
    requires i < |seg| && f.req.end < seg[i].end
    ensures j <= i
  {
  }

  /** The bytes by which the new lock exceeds the request were locked that way before. */
  lemma AtAbsorbed(
      f: Edit, pre: seq<Lock>, seg: seq<Lock>, post: seq<Lock>, r: Request, p: nat, j: nat, b: int)
    requires Ended(f, pre, seg, post, r, p, j)
    requires f.req.start <= b <= f.req.end && !(r.start <= b <= r.end)
    ensures r.kind != Unlock && At(seg, r.owner, b) == r.kind
  {
    if b < r.start { AtIndex(seg, p, b); } else { AtIndex(seg, j - 1, b); }
  }

  lemma NewSegmentAt(
      f: Edit, pre: seq<Lock>, seg: seq<Lock>, post: seq<Lock>, r: Request, p: nat, j: nat,
      id1: nat, id2: nat, b: int)
    requires Ended(f, pre, seg, post, r, p, j)
    ensures At(NewSegment(f, seg, p, j, id1, id2), r.owner, b) ==
            if r.start <= b <= r.end then r.kind else At(seg, r.owner, b)
  {
    var low, mid, high := Low(f, seg, p, id2), Mid(f, seg, p, id1), High(f, seg, j);
    LowFacts(f, pre, seg, post, r, p, j, id2);
    NewSegmentSorted(f, pre, seg, post, r, p, j, id1, id2);
    assert AllWellFormed(low + mid) by {
      var s := NewSegment(f, seg, p, j, id1, id2);
      forall i | 0 <= i < |low + mid| ensures WellFormed((low + mid)[i]) { assert WellFormed(s[i]); }
    }
    AtConcat(low + mid, high, r.owner, b);
    AtConcat(low, mid, r.owner, b);
    AtLow(f, pre, seg, post, r, p, j, id2, b);
    AtHigh(f, pre, seg, post, r, p, j, b);
    if f.req.start <= b <= f.req.end && !(r.start <= b <= r.end) {
      AtAbsorbed(f, pre, seg, post, r, p, j, b);
    }
  }

  // ---- the whole list

  lemma AtParts(pre: seq<Lock>, seg: seq<Lock>, post: seq<Lock>, owner: Owner, o: Owner, b: int)
    requires AllWellFormed(pre) && AllWellFormed(seg)
    requires NotOwnedBy(pre, owner) && OwnedBy(seg, owner) && NotOwnedBy(post, owner)
    ensures o == owner ==> At(pre + seg + post, o, b) == At(seg, o, b)
    ensures o != owner ==> At(pre + seg + post, o, b) == At(pre + post, o, b)
  {
    AtConcat(pre, seg + post, o, b);
    AtConcat(seg, post, o, b);
    AtConcat(pre, post, o, b);
    assert pre + seg + post == pre + (seg + post);
    if o == owner {
      AtNone(pre, o, b);
      AtNone(post, o, b);
    } else {
      AtNone(seg, o, b);
    }
  }

  lemma ReplaceContiguous(pre: seq<Lock>, seg: seq<Lock>, seg': seq<Lock>, post: seq<Lock>, o: Owner)
    requires Parts(pre + seg + post, o, pre, seg, post) && Contiguous(pre + seg + post)
    requires OwnedBy(seg', o)
    ensures Contiguous(pre + seg' + post)
  {
    var s, t := pre + seg + post, pre + seg' + post;
    var n, m, m' := |pre|, |pre| + |seg|, |pre| + |seg'|;
    forall i: nat, j: nat, k: nat | i < j < k < |t|
      ensures Encloses(t, i, j, k)
    {
      var i0 := if i < n then i else if i < m' then n else i - m' + m;
      var j0 := if j < n then j else if j < m' then n else j - m' + m;
      var k0 := if k < n then k else if k < m' then n else k - m' + m;
      if seg == [] {
        assert t == pre + seg' && s == pre;
        if k < n { assert Encloses(s, i, j, k); }
      } else {
        assert t[i].owner == s[i0].owner && t[j].owner == s[j0].owner && t[k].owner == s[k0].owner;
        if i0 < j0 < k0 { assert Encloses(s, i0, j0, k0); }
      }
    }
  }

  lemma ReplaceSorted(pre: seq<Lock>, seg: seq<Lock>, seg': seq<Lock>, post: seq<Lock>, o: Owner)
    requires Parts(pre + seg + post, o, pre, seg, post)
    requires Sorted(pre + seg + post) && AllWellFormed(pre + seg + post)
    requires OwnedBy(seg', o) && Sorted(seg') && AllWellFormed(seg')
    ensures Sorted(pre + seg' + post) && AllWellFormed(pre + seg' + post)
  {
    var s, t := pre + seg + post, pre + seg' + post;
    var n, m, m' := |pre|, |pre| + |seg|, |pre| + |seg'|;
    forall i | 0 <= i < |t|
      ensures WellFormed(t[i])
    {
      if n <= i < m' { assert t[i] == seg'[i - n]; }
      else { assert t[i] == s[if i < n then i else i - m' + m]; }
    }
    forall i, k | 0 <= i < k < |t| && t[i].owner == t[k].owner
      ensures Apart(t[i], t[k])
    {
      if n <= i < m' {
        assert t[i] == seg'[i - n];
        if k < m' { assert t[k] == seg'[k - n]; }
      } else {
        assert t[i] == s[if i < n then i else i - m' + m];
        if k < n || m' <= k { assert t[k] == s[if k < n then k else k - m' + m]; }
      }
    }
  }

  /** `list` taken apart, and where the loop ends when `r` is applied to it. */
  ghost predicate Applied(
      list: seq<Lock>, r: Request, pre: seq<Lock>, seg: seq<Lock>, post: seq<Lock>, p: nat, j: nat)
  {
    && Parts(list, r.owner, pre, seg, post)
    && Ended(Walk(Start(list, r)), pre, seg, post, r, p, j)
  }

  predicate Applicable(list: seq<Lock>, r: Request) {
    Canonical(list) && ValidRequest(r) && MergeSafe(list, r)
  }

  lemma ApplyParts(list: seq<Lock>, r: Request)
    returns (pre: seq<Lock>, seg: seq<Lock>, post: seq<Lock>, p: nat, j: nat)
    requires Applicable(list, r)
    ensures Applied(list, r, pre, seg, post, p, j)
  {
    pre, seg, post := PartsOf(list, r.owner);
    var n := |pre|;
    assert Given(seg, post, r) by {
      forall i | 0 <= i < |seg| ensures seg[i] == list[n + i] {}
      assert AllWellFormed(seg) by {
        forall i | 0 <= i < |seg| ensures WellFormed(seg[i]) { assert WellFormed(list[n + i]); }
      }
    }
    var e := Start(list, r);
    assert Inv(e, pre, seg, post, r, 0, 0) by {
      assert seg[..0] == [] && seg[0..] == seg;
    }
    p, j := WalkInv(e, pre, seg, post, r, 0, 0);
    var f := Walk(e);
    if f.left.AtBefore? && p < j {
      NoneBelow(f, pre, seg, post, r, p, j);
    }
  }

  /** Granting a request keeps the list in normal form. */
  lemma ApplyCanonical(list: seq<Lock>, r: Request, id1: nat, id2: nat)
    requires Applicable(list, r)
    ensures Canonical(Apply(list, r, id1, id2).list)
  {
    var pre, seg, post, p, j := ApplyParts(list, r);
    var f := Walk(Start(list, r));
    FinishShape(f, pre, seg, post, r, p, j, id1, id2);
    NewSegmentSorted(f, pre, seg, post, r, p, j, id1, id2);
    var seg' := NewSegment(f, seg, p, j, id1, id2);
    ReplaceContiguous(pre, seg, seg', post, r.owner);
    ReplaceSorted(pre, seg, seg', post, r.owner);
  }

  /** Granting a request gives the caller the type asked for on its range, and changes no other byte. */
  lemma ApplyAt(list: seq<Lock>, r: Request, id1: nat, id2: nat, o: Owner, b: int)
    requires Applicable(list, r)
    ensures At(Apply(list, r, id1, id2).list, o, b) ==
            if o == r.owner && r.start <= b <= r.end then r.kind else At(list, o, b)
  {
    var pre, seg, post, p, j := ApplyParts(list, r);
    var f := Walk(Start(list, r));
    FinishShape(f, pre, seg, post, r, p, j, id1, id2);
    NewSegmentSorted(f, pre, seg, post, r, p, j, id1, id2);
    NewSegmentAt(f, pre, seg, post, r, p, j, id1, id2, b);
    assert AllWellFormed(pre) by {
      forall i | 0 <= i < |pre| ensures WellFormed(pre[i]) { assert pre[i] == list[i]; }
    }
    AtParts(pre, seg, post, r.owner, o, b);
    AtParts(pre, NewSegment(f, seg, p, j, id1, id2), post, r.owner, o, b);
  }
}
