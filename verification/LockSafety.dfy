/**
 What `posix_lock_file` keeps on any lock list, in normal form or not: no byte is locked that was neither
 locked that way before nor asked for, and no sleeper is left behind.
 */
module LockSafety {
  import opened Basics
  import opened FileLocks
  import opened LockEdit
  import opened LockWakeups

  /** The bytes of `m` were locked that way by its owner, or are asked for by `r`. */
  ghost predicate Justified(list: seq<Lock>, r: Request, m: Lock) {
    forall b :: Covers(m, b) ==> Holds(list, m.owner, b, m.kind) || Asked(r, m.owner, b, m.kind)
  }

  predicate Asked(r: Request, o: Owner, b: int, k: Kind) {
    o == r.owner && k == r.kind && r.start <= b <= r.end
  }

  /** `s` has come from `list` by granting `r`, the sleepers of `woken` having been woken. */
  ghost predicate Sane(list: seq<Lock>, r: Request, s: seq<Lock>, woken: set<nat>, ids: set<nat>) {
    && AllProper(s) && (forall i :: 0 <= i < |s| ==> Justified(list, r, s[i]))
    && UniqueIds(s) && (forall i :: 0 <= i < |s| ==> s[i].id in ids)
    && forall i :: 0 <= i < |list| ==> list[i].id in woken || Survives(list[i], s)
  }

  lemma StartSane(list: seq<Lock>, r: Request)
    requires AllProper(list) && UniqueIds(list)
    ensures Sane(list, r, list, {}, Ids(list))
  {
  }

  /** A lock may be replaced if it has only grown, or if its sleepers are woken. */
  lemma SetSane(list: seq<Lock>, r: Request, s: seq<Lock>, woken: set<nat>, ids: set<nat>, k: nat, m: Lock)
    requires Sane(list, r, s, woken, ids) && k < |s|
    requires m.id == s[k].id && Proper(m) && Justified(list, r, m)
    ensures Sane(list, r, s[k := m], woken + {m.id}, ids)
    ensures Grown(s[k], m) ==> Sane(list, r, s[k := m], woken, ids)
  {
    var s' := s[k := m];
    forall i | 0 <= i < |list| && list[i].id !in woken
      ensures list[i].id == m.id || Survives(list[i], s')
      ensures Grown(s[k], m) ==> Survives(list[i], s')
    {
      var q :| 0 <= q < |s| && Grown(list[i], s[q]);
      assert q != k ==> s'[q] == s[q];
      assert s'[k] == m;
    }
  }

  lemma RemoveSane(list: seq<Lock>, r: Request, s: seq<Lock>, woken: set<nat>, ids: set<nat>, k: nat)
    requires Sane(list, r, s, woken, ids) && k < |s|
    ensures Sane(list, r, s[..k] + s[k + 1..], woken + {s[k].id}, ids)
  {
    var s' := s[..k] + s[k + 1..];
    forall i | 0 <= i < |s'| ensures s'[i] == s[if i < k then i else i + 1] {}
    forall i | 0 <= i < |list| && list[i].id !in woken + {s[k].id} ensures Survives(list[i], s') {
      var q :| 0 <= q < |s| && Grown(list[i], s[q]);
      assert s'[if q < k then q else q - 1] == s[q];
    }
  }

  lemma InsertSane(list: seq<Lock>, r: Request, s: seq<Lock>, woken: set<nat>, ids: set<nat>, k: nat, m: Lock)
    requires Sane(list, r, s, woken, ids) && k <= |s|
    requires m.id !in ids && Proper(m) && Justified(list, r, m)
    ensures Sane(list, r, s[..k] + [m] + s[k..], woken, ids + {m.id})
  {
    var s' := s[..k] + [m] + s[k..];
    forall i | 0 <= i < |s'| ensures s'[i] == if i == k then m else s[if i < k then i else i - 1] {}
    forall i | 0 <= i < |list| && list[i].id !in woken ensures Survives(list[i], s') {
      var q :| 0 <= q < |s| && Grown(list[i], s[q]);
      assert s'[if q < k then q else q + 1] == s[q];
    }
  }

  // ---- the loop

  /** The caller's own range, as a lock. */
  function CallerLock(e: Edit): Lock {
    Lock(0, e.req.owner, e.req.kind, e.req.start, e.req.end)
  }

  /** The caller's range is justified, and the locks that the loop remembers are where it says. */
  ghost predicate Remembers(list: seq<Lock>, r: Request, e: Edit) {
    && e.req.owner == r.owner && e.req.kind == r.kind && 0 <= e.req.start && e.req.end <= OFFSET_MAX
    && Justified(list, r, CallerLock(e))
    && (e.caller.Node? ==>
          && e.caller.at < |e.done| && e.left != Passed(e.caller.at)
          && e.done[e.caller.at].owner == r.owner && e.done[e.caller.at].kind == r.kind
          && e.done[e.caller.at].start >= e.req.start && e.done[e.caller.at].end <= e.req.end)
    && (e.left.Passed? ==> e.left.at < |e.done| && e.req.start - 1 <= e.done[e.left.at].end)
    && (e.right ==>
          && e.todo != []
          && e.todo[0].start <= e.req.end + 1 && e.req.end < e.todo[0].end && e.req.start - 1 <= e.todo[0].end)
  }

  ghost predicate LoopSane(list: seq<Lock>, r: Request, e: Edit) {
    Sane(list, r, e.done + e.todo, e.woken, Ids(list)) && Remembers(list, r, e)
  }

  lemma SmallerJustified(list: seq<Lock>, r: Request, m: Lock, m': Lock)
    requires Justified(list, r, m) && m'.owner == m.owner && m'.kind == m.kind
    requires m.start <= m'.start && m'.end <= m.end
    ensures Justified(list, r, m')
  {
  }

  /** The range made of two that overlap or touch. */
  lemma MergedJustified(list: seq<Lock>, r: Request, l: Lock, m: Lock, u: Lock)
    requires Justified(list, r, l) && Justified(list, r, m)
    requires l.owner == m.owner == u.owner && l.kind == m.kind == u.kind
    requires m.start - 1 <= l.end && l.start <= m.end + 1
    requires u.start == Min(l.start, m.start) && u.end == Max(l.end, m.end)
    ensures Justified(list, r, u)
  {
  }

  lemma NextSane(list: seq<Lock>, r: Request, e: Edit)
    requires LoopSane(list, r, e) && e.todo != [] && !e.right
    ensures LoopSane(list, r, Next(e))
  {
    assert Next(e).done + Next(e).todo == e.done + e.todo;
  }

  /** The current lock becomes `left`. */
  lemma LeftSane(list: seq<Lock>, r: Request, e: Edit, added: bool)
    requires LoopSane(list, r, e) && e.todo != [] && !e.right && e.req.start <= e.todo[0].end
    ensures LoopSane(list, r, Next(e.(added := added, left := Passed(|e.done|))))
  {
    NextSane(list, r, e);
  }

  lemma DropSane(list: seq<Lock>, r: Request, e: Edit)
    requires LoopSane(list, r, e) && e.todo != [] && !e.right
    ensures LoopSane(list, r, Drop(e))
  {
    var s, k := e.done + e.todo, |e.done|;
    RemoveSane(list, r, s, e.woken, Ids(list), k);
    assert Drop(e).done + Drop(e).todo == s[..k] + s[k + 1..];
  }

  lemma RetypeSane(list: seq<Lock>, r: Request, e: Edit)
    requires LoopSane(list, r, e) && e.todo != [] && !e.right && r.kind != Unlock && e.todo[0].owner == r.owner
    ensures LoopSane(list, r, Retype(e))
  {
    var s, k := e.done + e.todo, |e.done|;
    var fl := e.todo[0].(kind := e.req.kind, start := e.req.start, end := e.req.end);
    SmallerJustified(list, r, CallerLock(e), fl);
    SetSane(list, r, s, e.woken, Ids(list), k, fl);
    assert Retype(e).done + Retype(e).todo == s[k := fl];
  }

  /** The caller takes in the current lock, which takes its place in the list. */
  lemma MergeFirstSane(list: seq<Lock>, r: Request, e: Edit)
    requires LoopSane(list, r, e) && e.todo != [] && !e.right && !e.added
    requires e.todo[0].owner == r.owner && e.todo[0].kind == r.kind
    requires e.req.start - 1 <= e.todo[0].end && e.todo[0].start <= e.req.end + 1
    ensures LoopSane(list, r, Merge(e))
  {
    var s, k := e.done + e.todo, |e.done|;
    var u := e.todo[0].(start := Merge(e).req.start, end := Merge(e).req.end);
    assert s[k] == e.todo[0] && Proper(s[k]);
    MergedJustified(list, r, e.todo[0], CallerLock(e), u);
    SetSane(list, r, s, e.woken, Ids(list), k, u);
    assert Merge(e).done + Merge(e).todo == s[k := u];
    SmallerJustified(list, r, u, CallerLock(Merge(e)));
  }

  /** The caller, already in the list, takes in the current lock, which is deleted. */
  lemma MergeMoreSane(list: seq<Lock>, r: Request, e: Edit)
    requires LoopSane(list, r, e) && e.todo != [] && !e.right && e.added
    requires e.todo[0].owner == r.owner && e.todo[0].kind == r.kind
    requires e.req.start - 1 <= e.todo[0].end && e.todo[0].start <= e.req.end + 1
    ensures LoopSane(list, r, Merge(e))
  {
    var s, k, c := e.done + e.todo, |e.done|, e.caller;
    var u := CallerLock(Merge(e));
    assert s[k] == e.todo[0] && Proper(s[k]);
    MergedJustified(list, r, e.todo[0], CallerLock(e), u);
    RemoveSane(list, r, s, e.woken, Ids(list), k);
    var s1 := s[..k] + s[k + 1..];
    if c.Node? {
      var node := e.done[c.at].(start := u.start, end := u.end);
      SmallerJustified(list, r, u, node);
      SetSane(list, r, s1, e.woken + {e.todo[0].id}, Ids(list), c.at, node);
      assert Merge(e).done + Merge(e).todo == s1[c.at := node];
    } else {
      assert Merge(e).done + Merge(e).todo == s1;
    }
  }

  /** What a round of the loop leaves. */
  ghost predicate RoundSane(list: seq<Lock>, r: Request, m: Round) {
    LoopSane(list, r, m.e) && (m.Go? ==> !m.e.right)
  }

  lemma SameTypeSane(list: seq<Lock>, r: Request, e: Edit)
    requires LoopSane(list, r, e) && e.todo != [] && !e.right
    requires e.todo[0].owner == r.owner && e.todo[0].kind == r.kind
    ensures RoundSane(list, r, SameType(e))
  {
    var fl := e.todo[0];
    assert Proper(fl) by { assert (e.done + e.todo)[|e.done|] == fl; }
    if fl.end < e.req.start - 1 {
      NextSane(list, r, e);
    } else if fl.start <= Succ(e.req.end) {
      if e.added { MergeMoreSane(list, r, e); } else { MergeFirstSane(list, r, e); }
    }
  }

  lemma OtherTypeSane(list: seq<Lock>, r: Request, e: Edit)
    requires LoopSane(list, r, e) && e.todo != [] && !e.right
    requires e.todo[0].owner == r.owner && e.todo[0].kind != r.kind
    ensures RoundSane(list, r, OtherType(e))
  {
    hide Sane;
    var fl := e.todo[0];
    var e1 := e.(added := e.added || e.req.kind == Unlock);
    if fl.end < e.req.start {
      NextSane(list, r, e);
    } else if fl.start <= e.req.end && fl.end <= e.req.end {
      if fl.start < e.req.start {
        LeftSane(list, r, e, e1.added);
      } else if e1.added {
        DropSane(list, r, e1);
      } else {
        RetypeSane(list, r, e1);
      }
    }
  }

  lemma {:induction false} WalkSane(list: seq<Lock>, r: Request, e: Edit)
    requires LoopSane(list, r, e) && !e.right
    ensures LoopSane(list, r, Walk(e))
    decreases |e.todo|
  {
    hide Sane;
    if e.todo != [] && e.todo[0].owner == e.req.owner {
      if e.todo[0].kind == e.req.kind { SameTypeSane(list, r, e); } else { OtherTypeSane(list, r, e); }
      if OneRound(e).Go? { WalkSane(list, r, OneRound(e).e); }
    }
  }

  // ---- what follows the loop

  /** `left` is shortened. */
  lemma TrimSane(list: seq<Lock>, r: Request, e: Edit)
    requires LoopSane(list, r, e)
    ensures Sane(list, r, TrimLeft(e) + e.todo, e.woken + LeftIds(e), Ids(list))
  {
    var s := e.done + e.todo;
    if e.left.Passed? {
      var k := e.left.at;
      var m := e.done[k].(end := e.req.start - 1);
      assert s[k] == e.done[k] && Proper(s[k]);
      SmallerJustified(list, r, s[k], m);
      SetSane(list, r, s, e.woken, Ids(list), k, m);
      assert TrimLeft(e) + e.todo == s[k := m];
    }
  }

  /** `right` is shortened, and perhaps split. */
  lemma RightSane(list: seq<Lock>, r: Request, e: Edit, s: seq<Lock>, woken: set<nat>, id2: nat)
    requires Sane(list, r, s + e.todo, woken, Ids(list)) && Remembers(list, r, e) && e.right && id2 !in Ids(list)
    ensures var fl := e.todo[0];
            && Sane(list, r, s + [fl.(start := Succ(e.req.end))] + e.todo[1..], woken + {fl.id}, Ids(list))
            && Justified(list, r, fl.(id := id2, end := e.req.start - 1))
            && Proper(fl.(id := id2, end := e.req.start - 1))
  {
    var fl, k := e.todo[0], |s|;
    var all := s + e.todo;
    assert all[k] == fl && Proper(fl);
    var m := fl.(start := Succ(e.req.end));
    SmallerJustified(list, r, fl, m);
    SmallerJustified(list, r, fl, fl.(id := id2, end := e.req.start - 1));
    SetSane(list, r, all, woken, Ids(list), k, m);
    assert s + [m] + e.todo[1..] == all[k := m];
  }

  /** One lock is inserted between `s` and `t`, or none; its id is new. */
  lemma InsertOneSane(
      list: seq<Lock>, r: Request, s: seq<Lock>, ms: seq<Lock>, t: seq<Lock>, woken: set<nat>, ids: set<nat>, id: nat)
    requires Sane(list, r, s + t, woken, ids) && id !in ids
    requires ms == [] || (|ms| == 1 && ms[0].id == id && Proper(ms[0]) && Justified(list, r, ms[0]))
    ensures Sane(list, r, s + ms + t, woken, ids + {id})
  {
    if ms == [] {
      assert s + ms + t == s + t;
    } else {
      var all, k := s + t, |s|;
      InsertSane(list, r, all, woken, ids, k, ms[0]);
      assert all[..k] + [ms[0]] + all[k..] == s + ms + t;
    }
  }

  lemma FinishSane(list: seq<Lock>, r: Request, e: Edit, id1: nat, id2: nat)
    requires LoopSane(list, r, e) && id1 !in Ids(list) && id2 !in Ids(list) && id1 != id2
    ensures var a := Finish(e, id1, id2); Sane(list, r, a.list, a.woken, Ids(list) + {id1, id2})
  {
    if e.added || e.req.kind != Unlock {
      var s, ids, woken := TrimLeft(e), Ids(list), e.woken + LeftIds(e);
      var ins := if e.added then [] else [CallerLock(e).(id := id1)];
      TrimSane(list, r, e);
      SmallerJustified(list, r, CallerLock(e), CallerLock(e).(id := id1));
      if e.right {
        var fl := e.todo[0];
        var t := [fl.(start := Succ(e.req.end))] + e.todo[1..];
        var split := if e.left.AtBefore? then [fl.(id := id2, end := e.req.start - 1)] else [];
        RightSane(list, r, e, s, woken, id2);
        assert s + t == s + [fl.(start := Succ(e.req.end))] + e.todo[1..];
        InsertOneSane(list, r, s, ins, t, woken + {fl.id}, ids, id1);
        assert s + (ins + t) == s + ins + t;
        InsertOneSane(list, r, s, split, ins + t, woken + {fl.id}, ids + {id1}, id2);
        assert Finish(e, id1, id2).list == s + split + (ins + t);
        assert Finish(e, id1, id2).woken == woken + {fl.id};
        assert ids + {id1} + {id2} == ids + {id1, id2};
      } else {
        InsertOneSane(list, r, s, ins, e.todo, woken, ids, id1);
      }
    }
  }

  /** Granting a request, on any list. */
  lemma ApplySane(list: seq<Lock>, r: Request, id1: nat, id2: nat)
    requires AllProper(list) && ValidRequest(r) && Fresh(list, id1, id2)
    ensures var a := Apply(list, r, id1, id2); Sane(list, r, a.list, a.woken, Ids(list) + {id1, id2})
  {
    hide Sane;
    var e := Start(list, r);
    assert e.done + e.todo == list;
    StartSane(list, r);
    WalkSane(list, r, e);
    FinishSane(list, r, Walk(e), id1, id2);
  }

  /** A request that no lock stands against is granted without breaking exclusion. */
  lemma GrantKeepsExclusion(list: seq<Lock>, r: Request, list': seq<Lock>)
    requires Exclusive(list) && AllProper(list') && forall i :: 0 <= i < |list| ==> !Conflict(r, list[i])
    requires forall i :: 0 <= i < |list'| ==> Justified(list, r, list'[i])
    ensures Exclusive(list')
  {
  }
}
