/**
 POSIX record locks of one inode: the lock list, what it means byte by byte, and
 the normal form in which the kernel keeps it.
 */
module FileLocks {

  /** The largest file offset; `loff_t` is a signed 64-bit integer. */
  const OFFSET_MAX: int := 0x7fff_ffff_ffff_ffff

  /** `x + 1` computed in a `loff_t`, which wraps around after `OFFSET_MAX`. */
  function Succ(x: int): int {
    if x == OFFSET_MAX then -OFFSET_MAX - 1 else x + 1
  }

  /** `fl_owner` and `fl_pid`; two locks have the same owner when both agree. */
  datatype Owner = Owner(files: nat, pid: nat)

  /** As the type of a byte, `Unlock` says that the byte is not locked. */
  datatype Kind = Read | Write | Unlock

  /** A lock in the list of an inode; `id` stands for the address of the structure. */
  datatype Lock = Lock(id: nat, owner: Owner, kind: Kind, start: int, end: int)

  datatype Request = Request(owner: Owner, kind: Kind, start: int, end: int)

  predicate Covers(l: Lock, b: int) {
    l.start <= b <= l.end
  }

  predicate ValidRange(start: int, end: int) {
    0 <= start <= end <= OFFSET_MAX
  }

  predicate ValidRequest(r: Request) {
    ValidRange(r.start, r.end)
  }

  /** The type of the lock that owner `o` holds on byte `b`. */
  function At(list: seq<Lock>, o: Owner, b: int): Kind {
    if list == [] then Unlock
    else if list[0].owner == o && Covers(list[0], b) then list[0].kind
    else At(list[1..], o, b)
  }

  /** Owner `o` has a lock of type `k` on byte `b`. */
  predicate Holds(list: seq<Lock>, o: Owner, b: int, k: Kind) {
    exists i :: 0 <= i < |list| && list[i].owner == o && Covers(list[i], b) && list[i].kind == k
  }

  // ---- conflicts

  predicate Overlap(start1: int, end1: int, start2: int, end2: int) {
    end1 >= start2 && end2 >= start1
  }

  /** Does the lock `l` block the request `r`? */
  predicate Conflict(r: Request, l: Lock) {
    && r.owner != l.owner
    && Overlap(r.start, r.end, l.start, l.end)
    && (match r.kind
        case Read => l.kind == Write
        case Write => true
        case Unlock => false)
  }

  // ---- normal form

  /** `a` lies before `b`, and if they have the same type they do not touch. */
  predicate Apart(a: Lock, b: Lock) {
    a.end < b.start && (a.kind == b.kind ==> a.end + 1 < b.start)
  }

  predicate Sorted(s: seq<Lock>) {
    forall i, j :: 0 <= i < j < |s| && s[i].owner == s[j].owner ==> Apart(s[i], s[j])
  }

  /** If the owner of the locks `i` and `k` is the same, then the lock `j` has that owner too. */
  predicate Encloses(s: seq<Lock>, i: nat, j: nat, k: nat)
    requires i < j < k < |s|
  {
    s[i].owner == s[k].owner ==> s[j].owner == s[i].owner
  }

  predicate Contiguous(s: seq<Lock>) {
    forall i: nat, j: nat, k: nat :: i < j < k < |s| ==> Encloses(s, i, j, k)
  }

  predicate WellFormed(l: Lock) {
    ValidRange(l.start, l.end) && l.kind != Unlock
  }

  /** All that holds of each lock of a list that is not in normal form. */
  predicate Proper(l: Lock) {
    0 <= l.start && l.end <= OFFSET_MAX && l.kind != Unlock
  }

  predicate AllProper(s: seq<Lock>) {
    forall i :: 0 <= i < |s| ==> Proper(s[i])
  }

  predicate AllWellFormed(s: seq<Lock>) {
    forall i :: 0 <= i < |s| ==> WellFormed(s[i])
  }

  /** Each owner's locks are consecutive, sorted, disjoint and merged where possible. */
  predicate Canonical(s: seq<Lock>) {
    AllWellFormed(s) && Contiguous(s) && Sorted(s)
  }

  predicate OwnedBy(s: seq<Lock>, o: Owner) {
    forall i :: 0 <= i < |s| ==> s[i].owner == o
  }

  predicate NotOwnedBy(s: seq<Lock>, o: Owner) {
    forall i :: 0 <= i < |s| ==> s[i].owner != o
  }

  predicate UniqueIds(s: seq<Lock>) {
    forall i, j :: 0 <= i < j < |s| ==> s[i].id != s[j].id
  }

  predicate IdsBelow(s: seq<Lock>, n: nat) {
    forall i :: 0 <= i < |s| ==> s[i].id < n
  }

  // ---- facts about At

  lemma {:induction false} AtConcat(s: seq<Lock>, t: seq<Lock>, o: Owner, b: int)
    requires AllWellFormed(s)
    ensures At(s + t, o, b) == if At(s, o, b) != Unlock then At(s, o, b) else At(t, o, b)
  {
    if s == [] {
      assert s + t == t;
    } else {
      assert (s + t)[1..] == s[1..] + t;
      AtConcat(s[1..], t, o, b);
    }
  }

  lemma {:induction false} AtNone(s: seq<Lock>, o: Owner, b: int)
    requires forall i :: 0 <= i < |s| ==> s[i].owner != o || !Covers(s[i], b)
    ensures At(s, o, b) == Unlock
  {
    if s != [] {
      AtNone(s[1..], o, b);
    }
  }

  lemma {:induction false} AtIndex(s: seq<Lock>, i: nat, b: int)
    requires i < |s| && Covers(s[i], b) && Sorted(s)
    ensures At(s, s[i].owner, b) == s[i].kind
  {
    if i > 0 {
      AtIndex(s[1..], i - 1, b);
    }
  }

  lemma {:induction false} AtWitness(s: seq<Lock>, o: Owner, b: int) returns (i: nat)
    requires At(s, o, b) != Unlock
    ensures i < |s| && s[i].owner == o && Covers(s[i], b) && s[i].kind == At(s, o, b)
  {
    if s[0].owner == o && Covers(s[0], b) {
      i := 0;
    } else {
      i := AtWitness(s[1..], o, b);
      i := i + 1;
    }
  }

  // ---- exclusion

  /** A byte that two owners have locked is locked for reading by both. */
  ghost predicate Exclusive(s: seq<Lock>) {
    forall i, j, b :: 0 <= i < |s| && 0 <= j < |s| && s[i].owner != s[j].owner && Covers(s[i], b) && Covers(s[j], b)
                      ==> s[i].kind == Read
  }

  // ---- the normal form is unique

  predicate SameRange(a: Lock, b: Lock) {
    a.owner == b.owner && a.kind == b.kind && a.start == b.start && a.end == b.end
  }

  /** The locks of one owner, in list order. */
  function LocksOf(s: seq<Lock>, o: Owner): seq<Lock> {
    if s == [] then []
    else if s[0].owner == o then [s[0]] + LocksOf(s[1..], o)
    else LocksOf(s[1..], o)
  }

  lemma {:induction false} LocksOfFacts(s: seq<Lock>, o: Owner, b: int)
    requires Sorted(s) && AllWellFormed(s)
    ensures var t := LocksOf(s, o);
            Sorted(t) && AllWellFormed(t) && OwnedBy(t, o) && At(t, o, b) == At(s, o, b)
    ensures forall l :: l in LocksOf(s, o) ==> l in s
  {
    if s != [] {
      LocksOfFacts(s[1..], o, b);
      assert forall i :: 0 < i < |s| && s[i].owner == s[0].owner ==> Apart(s[0], s[i]);
      if s[0].owner == o {
        var t, u := LocksOf(s, o), LocksOf(s[1..], o);
        assert t[1..] == u;
        forall i, j | 0 <= i < j < |t| ensures Apart(t[i], t[j]) {
          assert t[j] == u[j - 1] && u[j - 1] in u;
          if i > 0 { assert t[i] == u[i - 1]; }
        }
      }
    }
  }

  lemma FirstRangeSame(s: seq<Lock>, t: seq<Lock>, o: Owner)
    requires Sorted(s) && AllWellFormed(s) && OwnedBy(s, o)
    requires Sorted(t) && AllWellFormed(t) && OwnedBy(t, o)
    requires forall b :: At(s, o, b) == At(t, o, b)
    requires s != []
    ensures t != [] && t[0].start <= s[0].start
    ensures t[0].start == s[0].start ==> t[0].kind == s[0].kind && t[0].end <= s[0].end
  {
    assert WellFormed(s[0]);
    AtIndex(s, 0, s[0].start);
    var i := AtWitness(t, o, s[0].start);
    assert i > 0 ==> Apart(t[0], t[i]);
    assert WellFormed(t[0]);
    if t[0].start == s[0].start {
      AtIndex(t, 0, s[0].start);
      if s[0].end < t[0].end {
        AtIndex(t, 0, s[0].end + 1);
        var k := AtWitness(s, o, s[0].end + 1);
        assert false;
      }
    }
  }

  /**
   The normal form is unique: what an owner holds on each byte determines its locks, apart from
   the addresses of the structures.
   */
  lemma {:induction false} RangesUnique(s: seq<Lock>, t: seq<Lock>, o: Owner)
    requires Sorted(s) && AllWellFormed(s) && OwnedBy(s, o)
    requires Sorted(t) && AllWellFormed(t) && OwnedBy(t, o)
    requires forall b :: At(s, o, b) == At(t, o, b)
    ensures |s| == |t| && forall i :: 0 <= i < |s| ==> SameRange(s[i], t[i])
    decreases |s|
  {
    if s == [] {
      if t != [] { FirstRangeSame(t, s, o); }
    } else {
      FirstRangeSame(s, t, o);
      FirstRangeSame(t, s, o);
      forall b ensures At(s[1..], o, b) == At(t[1..], o, b) {
        assert At(s, o, b) == At(t, o, b);
        if Covers(s[0], b) {
          AtNone(s[1..], o, b);
          AtNone(t[1..], o, b);
        }
      }
      RangesUnique(s[1..], t[1..], o);
    }
  }

  lemma NormalFormUnique(s: seq<Lock>, t: seq<Lock>, o: Owner)
    requires Canonical(s) && Canonical(t)
    requires forall b :: At(s, o, b) == At(t, o, b)
    ensures var u, v := LocksOf(s, o), LocksOf(t, o);
            |u| == |v| && forall i :: 0 <= i < |u| ==> SameRange(u[i], v[i])
  {
    forall b ensures At(LocksOf(s, o), o, b) == At(LocksOf(t, o), o, b) {
      LocksOfFacts(s, o, b);
      LocksOfFacts(t, o, b);
    }
    LocksOfFacts(s, o, 0);
    LocksOfFacts(t, o, 0);
    RangesUnique(LocksOf(s, o), LocksOf(t, o), o);
  }
}
