/**
 Unlocking on any lock list, in normal form or not: no byte outside the request changes, and the exact condition
 under which none of those inside stays locked, read off the list.
 */
module LockUnlock {
  import opened FileLocks
  import opened LockEdit
  import opened LockWrap
  import opened LockAnyList

  /** The lock starts below the request and reaches into it. */
  predicate Under(l: Lock, r: Request) {
    l.start < r.start <= l.end
  }

  /** The loop goes no further than this lock, which reaches above the request. */
  predicate EndsLoop(l: Lock, r: Request) {
    r.start <= l.end && (r.end < l.start || r.end < l.end)
  }

  /** How many locks up to the end of the loop start below the request and reach into it. */
  function Unders(s: seq<Lock>, r: Request): nat {
    if s == [] || s[0].owner != r.owner then 0
    else (if Under(s[0], r) then 1 else 0) + if EndsLoop(s[0], r) then 0 else Unders(s[1..], r)
  }

  /** Behind the end of the loop there is a lock of the caller in the range. */
  predicate Behind(s: seq<Lock>, r: Request) {
    if s == [] then false
    else if s[0].owner != r.owner || EndsLoop(s[0], r) then AnyOther(s[1..], r)
    else Behind(s[1..], r)
  }

  /** At most one lock has to be shortened from the right, and none lies where the loop does not get. */
  predicate AllReleased(list: seq<Lock>, r: Request) {
    var s := list[Skip(list, r.owner)..];
    Unders(s, r) <= 1 && !Behind(s, r)
  }

  lemma {:induction false} UnlockLeaves(s: seq<Lock>, r: Request, pending: bool)
    requires AllProper(s) && ValidRequest(r) && r.kind == Unlock
    ensures LeavesOther(s, r, r, pending) <==> Unders(s, r) >= (if pending then 1 else 2) || Behind(s, r)
    decreases |s|
  {
    if s != [] {
      var l, rest := s[0], s[1..];
      assert Proper(l) && s == [l] + rest;
      if l.owner != r.owner {
        AnyConcat([l], rest, r);
      } else if !EndsLoop(l, r) {
        UnlockLeaves(rest, r, pending || Under(l, r));
        UnlockLeaves(rest, r, true);
      }
    }
  }

  /**
   Unlocking on any list releases exactly the bytes asked for if and only if at most one lock of the caller starts
   below them and reaches into them, and no lock of the caller on them lies behind the end of the loop.
   */
  lemma UnlockExactIff(list: seq<Lock>, r: Request, id1: nat, id2: nat)
    requires AllProper(list) && ValidRequest(r) && r.kind == Unlock
    ensures Exact(list, r, Apply(list, r, id1, id2).list) <==> AllReleased(list, r)
  {
    SingleKeepsOutside(list, r);
    GrantExactIff(list, r, id1, id2);
    UnlockLeaves(list[Skip(list, r.owner)..], r, false);
  }

  /** What comes of it: a read lock on bytes 0-10 is extended to the end of the file, then bytes 0-7
      are unlocked, and byte 3 stays locked. */
  lemma UnlockAfterUnsafeMerge(o: Owner)
    ensures var list := [Lock(0, o, Read, 0, 10)];
            var extended := Apply(list, Request(o, Read, 5, OFFSET_MAX), 1, 2).list;
            var unlocked := Apply(extended, Request(o, Unlock, 0, 7), 3, 4).list;
            !AllReleased(extended, Request(o, Unlock, 0, 7)) && At(unlocked, o, 3) == Read
  {
    var first := Lock(0, o, Read, 0, 10);
    var r := Request(o, Read, 5, OFFSET_MAX);
    var e := Start([first], r);
    assert e.done == [] && e.todo == [first];
    assert Walk(e) == e;
    var added := Lock(1, o, Read, 5, OFFSET_MAX);
    var extended := Apply([first], r, 1, 2).list;
    assert extended == [added, first];
    var u := Request(o, Unlock, 0, 7);
    var e2 := Start(extended, u);
    assert e2.done == [] && e2.todo == [added, first];
    var f2 := Walk(e2);
    assert f2 == e2.(added := true, right := true);
    var unlocked := Apply(extended, u, 3, 4).list;
    assert unlocked == [added.(start := 8), first];
    assert unlocked[1..] == [first];
  }
}
