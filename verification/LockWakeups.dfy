/**
 Which sleepers an edit of the lock list wakes: exactly those whose blocking lock has been
 deleted, shortened or changed in type.
 */
module LockWakeups {
  import opened FileLocks
  import opened LockEdit

  /** `m` is what has become of `l`, and covers at least what `l` covered. */
  predicate Grown(l: Lock, m: Lock) {
    m.id == l.id && m.owner == l.owner && m.kind == l.kind && m.start <= l.start && l.end <= m.end
  }

  ghost predicate Survives(l: Lock, list: seq<Lock>) {
    exists k :: 0 <= k < |list| && Grown(l, list[k])
  }

  /** How the parts of the new segment fit together. */
  predicate Shape(f: Edit, seg: seq<Lock>, p: nat, j: nat) {
    && p <= j <= |seg|
    && (f.left.AtBefore? ==> p == j && f.right)
    && (f.right ==> j < |seg|)
    && (f.left.Passed? ==> p > 0)
    && (f.added && f.req.kind != Unlock ==> p < j)
    && (!f.added ==> p == j)
  }

  /** The id of lock `k` of the new segment. */
  function NewId(f: Edit, seg: seq<Lock>, p: nat, j: nat, id1: nat, id2: nat, k: nat): nat
    requires Shape(f, seg, p, j) && k < |NewSegment(f, seg, p, j, id1, id2)|
  {
    var n := |Low(f, seg, p, id2)|;
    var m := n + |Mid(f, seg, p, id1)|;
    if k < p then seg[k].id
    else if k < n then id2
    else if k < m then if f.added then seg[p].id else id1
    else seg[j + (k - m)].id
  }

  lemma NewIdAt(f: Edit, seg: seq<Lock>, p: nat, j: nat, id1: nat, id2: nat, k: nat)
    requires Shape(f, seg, p, j) && k < |NewSegment(f, seg, p, j, id1, id2)|
    ensures NewSegment(f, seg, p, j, id1, id2)[k].id == NewId(f, seg, p, j, id1, id2, k)
  {
  }

  /** The new segment holds each id once: those of the old segment, and perhaps the new ones. */
  lemma NewIds(f: Edit, seg: seq<Lock>, p: nat, j: nat, id1: nat, id2: nat)
    requires Shape(f, seg, p, j)
    requires UniqueIds(seg) && id1 != id2
    requires forall i :: 0 <= i < |seg| ==> seg[i].id != id1 && seg[i].id != id2
    ensures UniqueIds(NewSegment(f, seg, p, j, id1, id2))
  {
    var s := NewSegment(f, seg, p, j, id1, id2);
    forall i, k | 0 <= i < k < |s| ensures s[i].id != s[k].id {
      NewIdAt(f, seg, p, j, id1, id2, i);
      NewIdAt(f, seg, p, j, id1, id2, k);
    }
  }

  /** Lock `i` of the segment, and what the edit makes of it. */
  lemma SegmentFate(
      f: Edit, pre: seq<Lock>, seg: seq<Lock>, post: seq<Lock>, r: Request, p: nat, j: nat,
      id1: nat, id2: nat, i: nat)
    requires Ended(f, pre, seg, post, r, p, j)
    requires UniqueIds(seg) && id1 != id2
    requires forall i :: 0 <= i < |seg| ==> seg[i].id != id1 && seg[i].id != id2
    requires i < |seg|
    ensures seg[i].id in Finish(f, id1, id2).woken <==> !Survives(seg[i], NewSegment(f, seg, p, j, id1, id2))
  {
    var s := NewSegment(f, seg, p, j, id1, id2);
    WokenIds(f, pre, seg, post, r, p, j, id1, id2, i);
    NewIds(f, seg, p, j, id1, id2);
    var n := |Low(f, seg, p, id2)|;
    var m := n + |Mid(f, seg, p, id1)|;
    if i < p {
      KeptOrTrimmed(f, pre, seg, post, r, p, j, id1, id2, i, i);
    } else if i < j {
      if r.kind != Unlock && i == p {
        assert s[n] == Mid(f, seg, p, id1)[0];
        assert s[n].id == seg[i].id;
        assert Grown(seg[i], s[n]) <==> seg[p].kind == r.kind;
        OnlyCandidate(seg[i], s, n);
      } else {
        forall k | 0 <= k < |s| ensures s[k].id != seg[i].id {
          NewIdAt(f, seg, p, j, id1, id2, k);
        }
      }
    } else {
      KeptOrTrimmed(f, pre, seg, post, r, p, j, id1, id2, i, m + (i - j));
    }
  }

  lemma OnlyCandidate(l: Lock, s: seq<Lock>, k: nat)
    requires UniqueIds(s) && k < |s| && s[k].id == l.id
    ensures Survives(l, s) <==> Grown(l, s[k])
  {
  }

  /** A lock below or above the new one stays as it is, unless it is `left` or `right`. */
  lemma KeptOrTrimmed(
      f: Edit, pre: seq<Lock>, seg: seq<Lock>, post: seq<Lock>, r: Request, p: nat, j: nat,
      id1: nat, id2: nat, i: nat, k: nat)
    requires Ended(f, pre, seg, post, r, p, j)
    requires i < |seg| && (i < p || j <= i) && UniqueIds(NewSegment(f, seg, p, j, id1, id2))
    requires k == if i < p then i else |Low(f, seg, p, id2)| + |Mid(f, seg, p, id1)| + (i - j)
    ensures Survives(seg[i], NewSegment(f, seg, p, j, id1, id2)) <==>
            !((i == p - 1 && f.left.Passed?) || (i == j && f.right))
  {
    var low, mid, high := Low(f, seg, p, id2), Mid(f, seg, p, id1), High(f, seg, j);
    var s := NewSegment(f, seg, p, j, id1, id2);
    assert s[k] == if i < p then low[i] else high[i - j];
    assert Grown(seg[i], s[k]) <==> s[k] == seg[i];
    OnlyCandidate(seg[i], s, k);
  }

  /** Which locks of the segment have their sleepers woken. */
  lemma WokenIds(
      f: Edit, pre: seq<Lock>, seg: seq<Lock>, post: seq<Lock>, r: Request, p: nat, j: nat,
      id1: nat, id2: nat, i: nat)
    requires Ended(f, pre, seg, post, r, p, j)
    requires UniqueIds(seg) && i < |seg|
    ensures seg[i].id in Finish(f, id1, id2).woken <==>
            || (i == p - 1 && f.left.Passed?)
            || (p <= i < j && !(i == p && seg[p].kind == r.kind && r.kind != Unlock))
            || (i == j && f.right)
  {
    hide Ids, RangeInv, Sorted, AllWellFormed;
    InSlice(seg, p, j, i);
    if p < j { InSlice(seg, p + 1, j, i); }
    if f.left.Passed? { assert f.done[f.left.at] == seg[p - 1]; }
    if f.right { assert f.todo[0] == seg[j]; }
  }

  lemma InSlice(seg: seq<Lock>, a: nat, b: nat, i: nat)
    requires UniqueIds(seg) && a <= b <= |seg| && i < |seg|
    ensures seg[i].id in Ids(seg[a..b]) <==> a <= i < b
  {
  }

  // ---- the whole list

  lemma SliceIds(seg: seq<Lock>, a: nat, b: nat)
    requires a <= b <= |seg|
    ensures Ids(seg[a..b]) <= Ids(seg)
  {
  }

  lemma WokenInSegment(
      f: Edit, pre: seq<Lock>, seg: seq<Lock>, post: seq<Lock>, r: Request, p: nat, j: nat,
      id1: nat, id2: nat)
    requires Ended(f, pre, seg, post, r, p, j)
    ensures Finish(f, id1, id2).woken <= Ids(seg)
  {
  }

  lemma SurvivesIn(l: Lock, pre: seq<Lock>, seg: seq<Lock>, post: seq<Lock>)
    ensures Survives(l, pre + seg + post) <==> Survives(l, pre) || Survives(l, seg) || Survives(l, post)
  {
    var s := pre + seg + post;
    var n, m := |pre|, |pre| + |seg|;
    if k :| 0 <= k < |pre| && Grown(l, pre[k]) { assert s[k] == pre[k]; }
    if k :| 0 <= k < |seg| && Grown(l, seg[k]) { assert s[n + k] == seg[k]; }
    if k :| 0 <= k < |post| && Grown(l, post[k]) { assert s[m + k] == post[k]; }
    if k :| 0 <= k < |s| && Grown(l, s[k]) {
      if k < n { assert s[k] == pre[k]; } else if k < m { assert s[k] == seg[k - n]; } else { assert s[k] == post[k - m]; }
    }
  }

  /** A fate of the segment's locks is the fate of the list's, all other locks being untouched. */
  lemma FateInList(
      list: seq<Lock>, pre: seq<Lock>, seg: seq<Lock>, s: seq<Lock>, post: seq<Lock>, woken: set<nat>, i: nat)
    requires list == pre + seg + post && UniqueIds(list) && i < |list|
    requires woken <= Ids(seg)
    requires |pre| <= i < |pre| + |seg| ==> (list[i].id in woken <==> !Survives(list[i], s))
    ensures list[i].id in woken <==> !Survives(list[i], pre + s + post)
  {
    var n, m := |pre|, |pre| + |seg|;
    SegmentIds(list, pre, seg, post);
    SurvivesIn(list[i], pre, s, post);
    if n <= i < m {
      assert list[i] == seg[i - n];
      assert list[i].id in Ids(seg);
    } else {
      assert list[i] == if i < n then pre[i] else post[i - m];
      assert Grown(list[i], list[i]);
    }
  }

  predicate Fresh(list: seq<Lock>, id1: nat, id2: nat) {
    UniqueIds(list) && IdsBelow(list, id1) && id1 < id2
  }

  lemma FreshSegment(list: seq<Lock>, pre: seq<Lock>, seg: seq<Lock>, post: seq<Lock>, id1: nat, id2: nat)
    requires list == pre + seg + post && Fresh(list, id1, id2)
    ensures UniqueIds(seg) && forall i :: 0 <= i < |seg| ==> seg[i].id != id1 && seg[i].id != id2
  {
    SegmentIds(list, pre, seg, post);
    forall k | 0 <= k < |seg| ensures seg[k].id < id1 { assert seg[k] == list[|pre| + k]; }
  }

  /** The sleepers woken are exactly those whose lock is gone, shortened or changed in type. */
  lemma ApplyFate(list: seq<Lock>, r: Request, id1: nat, id2: nat, i: nat)
    requires Applicable(list, r) && Fresh(list, id1, id2) && i < |list|
    ensures var a := Apply(list, r, id1, id2); list[i].id in a.woken <==> !Survives(list[i], a.list)
  {
    var pre, seg, post, p, j := ApplyParts(list, r);
    var f := Walk(Start(list, r));
    FinishShape(f, pre, seg, post, r, p, j, id1, id2);
    FreshSegment(list, pre, seg, post, id1, id2);
    WokenInSegment(f, pre, seg, post, r, p, j, id1, id2);
    if |pre| <= i < |pre| + |seg| {
      SegmentFate(f, pre, seg, post, r, p, j, id1, id2, i - |pre|);
    }
    FateInList(list, pre, seg, NewSegment(f, seg, p, j, id1, id2), post, Finish(f, id1, id2).woken, i);
  }

  /** Ids of different parts of the list differ. */
  lemma SegmentIds(list: seq<Lock>, pre: seq<Lock>, seg: seq<Lock>, post: seq<Lock>)
    requires list == pre + seg + post && UniqueIds(list)
    ensures UniqueIds(seg)
    ensures forall l :: l in pre || l in post ==> l.id !in Ids(seg)
  {
    var n, m := |pre|, |pre| + |seg|;
    forall i, k | 0 <= i < k < |seg| ensures seg[i].id != seg[k].id {
      assert seg[i] == list[n + i] && seg[k] == list[n + k];
    }
    forall i, k | 0 <= i < |list| && !(n <= i < m) && 0 <= k < |seg| ensures list[i].id != seg[k].id {
      assert seg[k] == list[n + k];
    }
    forall l | l in pre || l in post ensures l.id !in Ids(seg) {
      var i :| 0 <= i < |list| && !(n <= i < m) && list[i] == l by {
        assert forall k :: 0 <= k < |pre| ==> list[k] == pre[k];
        assert forall k :: 0 <= k < |post| ==> list[m + k] == post[k];
      }
    }
  }

  lemma ApplyWoken(list: seq<Lock>, r: Request, id1: nat, id2: nat)
    requires Applicable(list, r)
    ensures Apply(list, r, id1, id2).woken <= Ids(list)
  {
    var pre, seg, post, p, j := ApplyParts(list, r);
    var f := Walk(Start(list, r));
    WokenInSegment(f, pre, seg, post, r, p, j, id1, id2);
    SliceIds(list, |pre|, |pre| + |seg|);
    assert seg == list[|pre|..|pre| + |seg|];
  }
}
