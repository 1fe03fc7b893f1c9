/**
 Requests that reach `OFFSET_MAX`. The test at locks.c:937 then wraps around and stops the loop at the
 first lock it should merge. What the grant still gets right, and the exact conditions of the rest.
 */
module LockWrap {
  import opened FileLocks
  import opened LockEdit
  import opened LockWakeups

  /** `l` is a lock of the caller's that a request should be merged with. */
  predicate Mergeable(l: Lock, r: Request) {
    l.owner == r.owner && l.kind == r.kind && r.start - 1 <= l.end
  }

  predicate NoneMergeable(s: seq<Lock>, r: Request) {
    forall i :: 0 <= i < |s| ==> !Mergeable(s[i], r)
  }

  /** The request meets the wrap-around at lock `c`, the first that should be merged. */
  predicate Wraps(list: seq<Lock>, r: Request, c: nat) {
    && Canonical(list) && ValidRequest(r) && r.end == OFFSET_MAX && r.kind != Unlock
    && c < |list| && Mergeable(list[c], r) && NoneMergeable(list[..c], r)
  }

  lemma FirstMergeable(list: seq<Lock>, r: Request) returns (c: nat)
    requires Canonical(list) && ValidRequest(r) && !MergeSafe(list, r)
    ensures Wraps(list, r, c)
  {
    c := 0;
    while !Mergeable(list[c], r)
      invariant c < |list| && NoneMergeable(list[..c], r)
      invariant exists i :: c <= i < |list| && Mergeable(list[i], r)
      decreases |list| - c
    {
      assert list[..c + 1] == list[..c] + [list[c]];
      c := c + 1;
    }
  }

  /** The locks before lock `c` are a list in normal form, and safe for the request. */
  lemma BeforeWrap(list: seq<Lock>, r: Request, c: nat)
    requires Wraps(list, r, c)
    ensures Applicable(list[..c], r)
  {
    var s := list[..c];
    forall i: nat, j: nat, k: nat | i < j < k < |s| ensures Encloses(s, i, j, k) {
      assert Encloses(list, i, j, k);
    }
    forall i | 0 <= i < |s| && s[i].owner == r.owner && s[i].kind == r.kind ensures s[i].end < r.start - 1 {
      assert !Mergeable(s[i], r);
    }
  }

  /** The loop treats the locks `s` as if `t` did not follow, and stops at `t`. */
  lemma {:induction false} WalkStops(e: Edit, r: Request, s: seq<Lock>, t: seq<Lock>)
    requires ValidRequest(r) && r.end == OFFSET_MAX && r.kind != Unlock
    requires e.todo == s && e.req == r && !e.right
    requires AllWellFormed(s) && OwnedBy(s, r.owner) && NoneMergeable(s, r)
    requires t != [] && WellFormed(t[0]) && Mergeable(t[0], r)
    ensures var f := Walk(e); f.todo == [] && f.req == r && !f.right && Walk(e.(todo := s + t)) == f.(todo := t)
    decreases |s|
  {
    var e2 := e.(todo := s + t);
    if s == [] {
      assert e2 == e.(todo := t);
    } else {
      assert e2.todo[0] == s[0] && e2.todo[1..] == s[1..] + t && !Mergeable(s[0], r) && WellFormed(s[0]);
      var e1 := OneRound(e).e;
      assert OneRound(e2) == Go(e1.(todo := s[1..] + t));
      WalkStops(e1, r, s[1..], t);
    }
  }

  lemma FinishAppends(f: Edit, t: seq<Lock>, id1: nat, id2: nat)
    requires f.todo == [] && f.req.kind != Unlock && !f.right
    ensures var a, a' := Finish(f, id1, id2), Finish(f.(todo := t), id1, id2);
            a'.list == a.list + t && a'.woken == a.woken
  {
  }

  /** The locks of the caller before lock `c`. */
  lemma WrapSegment(list: seq<Lock>, r: Request, c: nat)
    requires Wraps(list, r, c) && Skip(list, r.owner) <= c
    ensures var s := list[Skip(list, r.owner)..c]; AllWellFormed(s) && OwnedBy(s, r.owner) && NoneMergeable(s, r)
    ensures WellFormed(list[c])
  {
    var n := Skip(list, r.owner);
    var s := list[n..c];
    forall k | 0 <= k < |s| ensures s[k].owner == r.owner && !Mergeable(s[k], r) && WellFormed(s[k]) {
      assert s[k] == list[n + k] == list[..c][n + k];
      if k > 0 { assert Encloses(list, n, n + k, c); }
    }
  }

  /** Such a request is granted as if the list ended before lock `c`; the rest of the list is not looked at. */
  lemma WrapShape(list: seq<Lock>, r: Request, c: nat, id1: nat, id2: nat)
    requires Wraps(list, r, c)
    ensures var a, a' := Apply(list[..c], r, id1, id2), Apply(list, r, id1, id2);
            a'.list == a.list + list[c..] && a'.woken == a.woken
  {
    hide Canonical, Walk, Finish, Skip;
    var n := Skip(list, r.owner);
    SkipPrefix(list, r.owner, c);
    WrapSegment(list, r, c);
    var s, t := list[n..c], list[c..];
    assert list[..c][n..] == s && list[..c][..n] == list[..n] && list[n..] == s + t;
    var e := Start(list[..c], r);
    assert Start(list, r) == e.(todo := s + t);
    WalkStops(e, r, s, t);
    FinishAppends(Walk(e), t, id1, id2);
  }

  lemma {:induction false} SkipPrefix(list: seq<Lock>, o: Owner, c: nat)
    requires c < |list| && list[c].owner == o
    ensures Skip(list, o) <= c && Skip(list[..c], o) == Skip(list, o)
  {
    if list[0].owner == o {
      assert c > 0 ==> list[..c][0] == list[0];
    } else {
      assert list[..c][0] == list[0] && list[..c][1..] == list[1..][..c - 1];
      SkipPrefix(list[1..], o, c - 1);
    }
  }

  /** Granting a request keeps the list in normal form exactly if the wrap-around finds nothing to merge. */
  lemma ApplyCanonicalIff(list: seq<Lock>, r: Request, id1: nat, id2: nat)
    requires Canonical(list) && ValidRequest(r)
    ensures Canonical(Apply(list, r, id1, id2).list) <==> MergeSafe(list, r)
  {
    if MergeSafe(list, r) {
      ApplyCanonical(list, r, id1, id2);
    } else {
      var c := FirstMergeable(list, r);
      BeforeWrap(list, r, c);
      WrapShape(list, r, c, id1, id2);
      ApplyAt(list[..c], r, id1, id2, r.owner, OFFSET_MAX);
      var s := Apply(list[..c], r, id1, id2).list;
      var i := AtWitness(s, r.owner, OFFSET_MAX);
      var t := s + list[c..];
      assert t[i] == s[i] && t[|s|] == list[c] && WellFormed(list[c]);
      assert !Apart(t[i], t[|s|]);
    }
  }

  /**
   Whatever the request: the first lock of the caller that covers a byte has the type asked for on the
   range of the request, and the type it had before elsewhere; nothing changes for other owners.
   */
  lemma ApplyFirst(list: seq<Lock>, r: Request, id1: nat, id2: nat, o: Owner, b: int)
    requires Canonical(list) && ValidRequest(r)
    ensures At(Apply(list, r, id1, id2).list, o, b) ==
            if o == r.owner && r.start <= b <= r.end then r.kind else At(list, o, b)
  {
    if MergeSafe(list, r) {
      ApplyAt(list, r, id1, id2, o, b);
    } else {
      var c := FirstMergeable(list, r);
      BeforeWrap(list, r, c);
      WrapShape(list, r, c, id1, id2);
      ApplyAt(list[..c], r, id1, id2, o, b);
      ApplyCanonical(list[..c], r, id1, id2);
      AtConcat(Apply(list[..c], r, id1, id2).list, list[c..], o, b);
      AtConcat(list[..c], list[c..], o, b);
      assert list == list[..c] + list[c..];
    }
  }

  /** Whatever the request, the sleepers woken are exactly those whose lock is gone, shortened or changed in type. */
  lemma ApplyWakes(list: seq<Lock>, r: Request, id1: nat, id2: nat, i: nat)
    requires Canonical(list) && ValidRequest(r) && Fresh(list, id1, id2) && i < |list|
    ensures var a := Apply(list, r, id1, id2); list[i].id in a.woken <==> !Survives(list[i], a.list)
  {
    hide Apply, Canonical, Survives, Ids;
    if MergeSafe(list, r) {
      ApplyFate(list, r, id1, id2, i);
    } else {
      var c := FirstMergeable(list, r);
      BeforeWrap(list, r, c);
      WrapShape(list, r, c, id1, id2);
      var a := Apply(list[..c], r, id1, id2);
      if i < c { ApplyFate(list[..c], r, id1, id2, i); }
      ApplyWoken(list[..c], r, id1, id2);
      FateInList(list, [], list[..c], a.list, list[c..], a.woken, i);
      assert [] + a.list + list[c..] == a.list + list[c..];
      assert list == [] + list[..c] + list[c..];
    }
  }

  /** In normal form an owner has one type of lock on a byte, that given by `At`. */
  lemma HoldsIsAt(list: seq<Lock>, o: Owner, b: int, k: Kind)
    requires Canonical(list)
    ensures Holds(list, o, b, k) <==> k != Unlock && At(list, o, b) == k
  {
    if Holds(list, o, b, k) {
      var i :| 0 <= i < |list| && list[i].owner == o && Covers(list[i], b) && list[i].kind == k;
      assert WellFormed(list[i]);
      AtIndex(list, i, b);
    }
    if k != Unlock && At(list, o, b) == k {
      var i := AtWitness(list, o, b);
    }
  }

  /** What the owners should hold after the grant. */
  predicate ShouldHold(list: seq<Lock>, r: Request, o: Owner, b: int, k: Kind) {
    if o == r.owner && r.start <= b <= r.end then k == r.kind != Unlock else Holds(list, o, b, k)
  }

  ghost predicate Exact(list: seq<Lock>, r: Request, list': seq<Lock>) {
    forall o, b, k :: Holds(list', o, b, k) <==> ShouldHold(list, r, o, b, k)
  }

  /** No lock of another type follows one that the wrap-around fails to merge. */
  predicate NothingHidden(list: seq<Lock>, r: Request) {
    r.end < OFFSET_MAX || r.kind == Unlock ||
    forall i, j :: 0 <= i < j < |list| && Mergeable(list[i], r) && list[j].owner == r.owner ==> list[j].kind == r.kind
  }

  lemma HoldsConcat(s: seq<Lock>, t: seq<Lock>, o: Owner, b: int, k: Kind)
    ensures Holds(s + t, o, b, k) <==> Holds(s, o, b, k) || Holds(t, o, b, k)
  {
    if Holds(s, o, b, k) {
      var i :| 0 <= i < |s| && s[i].owner == o && Covers(s[i], b) && s[i].kind == k;
      assert (s + t)[i] == s[i];
    }
    if Holds(t, o, b, k) {
      var i :| 0 <= i < |t| && t[i].owner == o && Covers(t[i], b) && t[i].kind == k;
      assert (s + t)[|s| + i] == t[i];
    }
  }

  /** A grant that does not meet the wrap-around is exact. */
  lemma SafeIsExact(list: seq<Lock>, r: Request, id1: nat, id2: nat, o: Owner, b: int, k: Kind)
    requires Applicable(list, r)
    ensures Holds(Apply(list, r, id1, id2).list, o, b, k) <==> ShouldHold(list, r, o, b, k)
  {
    ApplyAt(list, r, id1, id2, o, b);
    ApplyCanonical(list, r, id1, id2);
    HoldsIsAt(Apply(list, r, id1, id2).list, o, b, k);
    HoldsIsAt(list, o, b, k);
  }

  /** After a grant that does, the locks from `c` on are held as well as what should be. */
  lemma WrapHolds(list: seq<Lock>, r: Request, c: nat, id1: nat, id2: nat, o: Owner, b: int, k: Kind)
    requires Wraps(list, r, c)
    ensures Holds(Apply(list, r, id1, id2).list, o, b, k) <==> ShouldHold(list, r, o, b, k) || Holds(list[c..], o, b, k)
  {
    BeforeWrap(list, r, c);
    WrapShape(list, r, c, id1, id2);
    SafeIsExact(list[..c], r, id1, id2, o, b, k);
    HoldsConcat(Apply(list[..c], r, id1, id2).list, list[c..], o, b, k);
    HoldsConcat(list[..c], list[c..], o, b, k);
    assert list == list[..c] + list[c..];
  }

  /**
   The exact condition under which a grant changes the caller's locks to the type asked for on exactly the
   bytes asked for, and leaves every other byte and owner as it was.
   */
  lemma ApplyExactIff(list: seq<Lock>, r: Request, id1: nat, id2: nat)
    requires Canonical(list) && ValidRequest(r)
    ensures Exact(list, r, Apply(list, r, id1, id2).list) <==> NothingHidden(list, r)
  {
    var list' := Apply(list, r, id1, id2).list;
    if MergeSafe(list, r) {
      forall o, b, k ensures Holds(list', o, b, k) <==> ShouldHold(list, r, o, b, k) {
        SafeIsExact(list, r, id1, id2, o, b, k);
      }
    } else {
      var c := FirstMergeable(list, r);
      if NothingHidden(list, r) {
        forall o, b, k ensures Holds(list', o, b, k) <==> ShouldHold(list, r, o, b, k) {
          WrapHolds(list, r, c, id1, id2, o, b, k);
          if Holds(list[c..], o, b, k) { RestShould(list, r, c, o, b, k); }
        }
      } else {
        var j := Hidden(list, r, c);
        var b := list[j].start;
        WrapHolds(list, r, c, id1, id2, r.owner, b, list[j].kind);
        assert list[c..][j - c] == list[j] && WellFormed(list[j]);
        assert Apart(list[c], list[j]);
        assert !ShouldHold(list, r, r.owner, b, list[j].kind);
      }
    }
  }

  lemma RestShould(list: seq<Lock>, r: Request, c: nat, o: Owner, b: int, k: Kind)
    requires Wraps(list, r, c) && NothingHidden(list, r) && Holds(list[c..], o, b, k)
    ensures ShouldHold(list, r, o, b, k)
  {
  }

  /** A lock of another type that follows the first mergeable one. */
  lemma Hidden(list: seq<Lock>, r: Request, c: nat) returns (j: nat)
    requires Wraps(list, r, c) && !NothingHidden(list, r)
    ensures c < j < |list| && list[j].owner == r.owner && list[j].kind != r.kind
  {
    var i, j0 :| 0 <= i < j0 < |list| && Mergeable(list[i], r) && list[j0].owner == r.owner && list[j0].kind != r.kind;
    assert forall k :: 0 <= k < c ==> list[k] == list[..c][k];
    j := j0;
  }

  /** A read lock from byte 5 on, asked for over a read lock and a write lock, leaves the write lock in place. */
  lemma WriteLockStays(o: Owner)
    ensures var list := [Lock(0, o, Read, 0, 10), Lock(1, o, Write, 20, 30)];
            var r := Request(o, Read, 5, OFFSET_MAX);
            Canonical(list) && !NothingHidden(list, r) && !Exact(list, r, Apply(list, r, 2, 3).list)
  {
    var list := [Lock(0, o, Read, 0, 10), Lock(1, o, Write, 20, 30)];
    var r := Request(o, Read, 5, OFFSET_MAX);
    assert Mergeable(list[0], r) && list[1].kind != r.kind;
    ApplyExactIff(list, r, 2, 3);
  }
}
