/**
 `fs/seq_file.c`: a file made of records that are printed one by one into a buffer. Whatever sizes are
 read and wherever the reader seeks, it sees the plain concatenation of the records.
 */
module SeqFile {
  import opened Basics

  const PAGE_SIZE := 4096

  type Bytes = seq<nat>

  // ---- the concatenation of the records

  function Flat(records: seq<Bytes>): Bytes {
    if records == [] then [] else Flat(records[..|records| - 1]) + records[|records| - 1]
  }

  /** Where record `k` starts in the concatenation. */
  function Start(records: seq<Bytes>, k: nat): nat
    requires k <= |records|
  {
    |Flat(records[..k])|
  }

  lemma StartNext(records: seq<Bytes>, k: nat)
    requires k < |records|
    ensures Start(records, k + 1) == Start(records, k) + |records[k]|
    ensures Flat(records[..k + 1]) == Flat(records[..k]) + records[k]
  {
    assert records[..k + 1][..k] == records[..k];
  }

  /** The concatenation of the first `k` records is a prefix of the whole. */
  lemma {:induction false} FlatPrefix(records: seq<Bytes>, k: nat)
    requires k <= |records|
    ensures Start(records, k) <= |Flat(records)| && Flat(records)[..Start(records, k)] == Flat(records[..k])
    decreases |records| - k
  {
    if k == |records| {
      assert records[..k] == records;
    } else {
      FlatPrefix(records, k + 1);
      StartNext(records, k);
      assert Flat(records)[..Start(records, k)] == Flat(records)[..Start(records, k + 1)][..Start(records, k)];
    }
  }

  /** Record `k` is where it should be. */
  lemma RecordInStream(records: seq<Bytes>, k: nat)
    requires k < |records|
    ensures Start(records, k) + |records[k]| == Start(records, k + 1) <= |Flat(records)|
    ensures Part(records, Start(records, k), Start(records, k + 1)) == records[k]
  {
    StartNext(records, k);
    FlatPrefix(records, k + 1);
    var s, e := Start(records, k), Start(records, k + 1);
    assert Flat(records)[s..e] == Flat(records)[..e][s..];
  }

  /** The part of the concatenation from byte `a` to byte `b`; empty past the end. */
  function Part(records: seq<Bytes>, a: nat, b: nat): Bytes {
    var s := Flat(records);
    if a <= b <= |s| then s[a..b] else []
  }

  lemma PartJoin(records: seq<Bytes>, a: nat, b: nat, c: nat)
    requires a <= b <= c <= |Flat(records)|
    ensures Part(records, a, b) + Part(records, b, c) == Part(records, a, c)
  {
  }

  // ---- the size of the buffer

  /** A page, doubled any number of times. */
  predicate Doubling(size: nat)
    decreases size
  {
    size == PAGE_SIZE || (size > PAGE_SIZE && size % 2 == 0 && Doubling(size / 2))
  }

  /** The least of these above `n`, from `size` on. */
  function SizeFrom(n: nat, size: nat): (r: nat)
    requires size > 0
    ensures n < r && size <= r && (Doubling(size) ==> Doubling(r))
    decreases n - size
  {
    if n < size then size else SizeFrom(n, 2 * size)
  }

  function LeastSize(n: nat): nat { SizeFrom(n, PAGE_SIZE) }

  /** Of two sizes, the larger is at least twice the smaller. */
  lemma {:induction false} NextDoubling(a: nat, b: nat)
    requires Doubling(a) && Doubling(b) && a < b
    ensures 2 * a <= b
    decreases a
  {
    if a > PAGE_SIZE { NextDoubling(a / 2, b / 2); }
  }

  lemma {:induction false} LeastOfSizes(n: nat, from: nat, size: nat)
    requires Doubling(from) && Doubling(size) && from <= size && n < size
    ensures SizeFrom(n, from) <= size
    decreases n - from
  {
    if n >= from {
      NextDoubling(from, size);
      LeastOfSizes(n, 2 * from, size);
    }
  }

  /** The size once a buffer has been grabbed. */
  function Grabbed(size: nat): nat { if size == 0 then PAGE_SIZE else size }

  function MaxLength(records: seq<Bytes>): nat {
    if records == [] then 0
    else if |records[0]| > MaxLength(records[1..]) then |records[0]| else MaxLength(records[1..])
  }

  lemma {:induction false} LengthBound(records: seq<Bytes>, k: nat)
    requires k < |records|
    ensures |records[k]| <= MaxLength(records)
  {
    if k > 0 { LengthBound(records[1..], k - 1); }
  }

  lemma {:induction false} MaxLengthReached(records: seq<Bytes>, n: nat)
    requires n > 0 && forall k :: 0 <= k < |records| ==> |records[k]| < n
    ensures MaxLength(records) < n
  {
    if records != [] { MaxLengthReached(records[1..], n); }
  }

  // ---- an open file

  /** The state of an open file; `buf` has `size` bytes, of which `count` from `from` on are to be read. */
  datatype Seq = Seq(buf: Bytes, size: nat, from: nat, count: nat, index: nat, pos: nat)

  /** The records before `n` fit the buffer. */
  predicate Fit(records: seq<Bytes>, n: nat, size: nat) {
    n <= |records| && Doubling(Grabbed(size)) && forall k :: 0 <= k < n ==> |records[k]| < Grabbed(size)
  }

  /**
   What is in the buffer is the end of record `index`, and is what comes next in the file. The buffer has been made
   large enough for the records passed.
   */
  predicate Inv(records: seq<Bytes>, m: Seq) {
    && |m.buf| == m.size && Fit(records, if m.count > 0 then m.index + 1 else m.index, m.size)
    && if m.count > 0 then
         && m.index < |records| && m.from + m.count <= m.size
         && m.pos + m.count == Start(records, m.index + 1) && Start(records, m.index) <= m.pos
         && m.buf[m.from..m.from + m.count] == Part(records, m.pos, m.pos + m.count)
       else
         m.pos == Start(records, m.index) || (m.index == |records| && m.pos > Start(records, m.index))
  }

  /** The first record from `k` on that is not empty. */
  function NextNonEmpty(records: seq<Bytes>, k: nat): (j: nat)
    requires k <= |records|
    ensures k <= j <= |records| && (j < |records| ==> records[j] != [])
    ensures forall i :: k <= i < j ==> records[i] == []
    decreases |records| - k
  {
    if k == |records| || records[k] != [] then k else NextNonEmpty(records, k + 1)
  }

  /** The next record that is not empty is missing, or does not fit the buffer. */
  predicate Hidden(records: seq<Bytes>, index: nat, size: nat)
    requires index < |records|
  {
    var j := NextNonEmpty(records, index);
    j == |records| || |records[j]| >= size
  }

  /**
   When a read of at least one byte returns nothing: nothing is buffered, and either the remaining records
   are all empty, or the next one is empty and the first that is not does not fit the buffer.
   */
  predicate Stalls(records: seq<Bytes>, count: nat, index: nat, size: nat)
    requires index <= |records|
  {
    && count == 0
    && (index == |records| ||
        (records[index] == [] && Hidden(records, index, Grabbed(size))))
  }

  /**
   Record `i` is empty, and the first one after it that is not does not fit the buffer that the records before it
   have made necessary.
   */
  predicate Rough(records: seq<Bytes>, i: nat) {
    i < |records| && records[i] == [] &&
    var j := NextNonEmpty(records, i);
    j < |records| && |records[j]| >= LeastSize(MaxLength(records[..i]))
  }

  predicate Smooth(records: seq<Bytes>) {
    forall i :: 0 <= i < |records| ==> !Rough(records, i)
  }

  lemma {:induction false} StartMonotone(records: seq<Bytes>, i: nat, k: nat)
    requires i <= k <= |records|
    ensures Start(records, i) <= Start(records, k)
    ensures Start(records, i) == Start(records, k) ==> forall n :: i <= n < k ==> records[n] == []
    decreases k
  {
    if i < k {
      StartMonotone(records, i, k - 1);
      StartNext(records, k - 1);
    }
  }

  /** The first record from `j` on that does not fit a buffer of `size` behind those from `i` to it; or their number. */
  function FillEnd(records: seq<Bytes>, i: nat, j: nat, size: nat): (e: nat)
    requires i <= j <= |records|
    ensures j <= e <= |records|
    ensures e == j || Start(records, e) < Start(records, i) + size
    ensures e < |records| ==> Start(records, e + 1) >= Start(records, i) + size
    decreases |records| - j
  {
    if j < |records| && Start(records, j + 1) < Start(records, i) + size then FillEnd(records, i, j + 1, size) else j
  }

  /** How many bytes of the records from `i` on go into a buffer of `size`, in whole records. */
  function Room(records: seq<Bytes>, i: nat, size: nat): int {
    if i < |records| then Start(records, FillEnd(records, i, i, size)) - Start(records, i) else 0
  }

  /** The record that a read begins to print, when some bytes of record `index` are still in the buffer or none are. */
  function FirstPrinted(count: nat, index: nat): nat { if count > 0 then index + 1 else index }

  /** The size of the buffer into which it is printed. */
  function PrintSize(records: seq<Bytes>, i: nat, size: nat): nat {
    if i < |records| then SizeFrom(|records[i]|, Grabbed(size)) else Grabbed(size)
  }

  /** Printing on until enough is there or the next record does not fit comes to this. */
  lemma {:induction false} FillEndFrom(records: seq<Bytes>, i: nat, j: nat, at: nat, size: nat)
    requires i <= j <= at <= |records| && Start(records, at) < Start(records, i) + size
    ensures FillEnd(records, i, j, size) == FillEnd(records, i, at, size)
    decreases at - j
  {
    hide Start;
    if j < at {
      StartMonotone(records, j + 1, at);
      FillEndFrom(records, i, j + 1, at, size);
    }
  }

  lemma RoomPositive(records: seq<Bytes>, i: nat, size: nat)
    ensures Room(records, i, size) >= 0
    ensures i >= |records| ==> Room(records, i, size) == 0
  {
    hide Start;
    if i < |records| { StartMonotone(records, i, FillEnd(records, i, i, size)); }
  }

  lemma RoomIs(records: seq<Bytes>, i: nat, at: nat, size: nat, count: nat, want: nat)
    requires i <= at < |records| && Start(records, at + 1) == Start(records, i) + count && count < size
    requires count < want ==> at + 1 == |records| || count + |records[at + 1]| >= size
    ensures Min(want, Room(records, i, size)) == Min(want, count)
  {
    hide Start;
    FillEndFrom(records, i, i, at + 1, size);
    var e := FillEnd(records, i, at + 1, size);
    StartMonotone(records, at + 1, e);
    if at + 1 < |records| { StartStep(records, at + 1); }
  }

  lemma StartStep(records: seq<Bytes>, k: nat)
    requires k < |records|
    ensures Start(records, k + 1) == Start(records, k) + |records[k]|
  {
    StartNext(records, k);
  }

  const EINVAL := 22

  datatype Call = Read(want: nat) | Seek(offset: int, origin: nat)

  /**
   Each read of `calls` returns the bytes at the position at which it is made, and of a smooth file at least
   one if there are any; seeks return none.
   */
  predicate Sees(records: seq<Bytes>, pos: nat, calls: seq<Call>, outs: seq<Bytes>)
    decreases |calls|
  {
    |outs| == |calls| &&
    (calls == [] ||
     match calls[0]
     case Read(want) =>
       && |outs[0]| <= want && outs[0] == Part(records, pos, pos + |outs[0]|)
       && (want > 0 && Smooth(records) ==> (outs[0] == [] <==> pos >= |Flat(records)|))
       && Sees(records, pos + |outs[0]|, calls[1..], outs[1..])
     case Seek(offset, origin) =>
       var target := if origin == 1 then offset + pos else offset;
       outs[0] == [] && Sees(records, if origin > 1 || target < 0 then pos else target, calls[1..], outs[1..]))
  }

  /** Record `k` is printed on the way to byte `offset`. */
  predicate Passed(records: seq<Bytes>, offset: nat, k: nat) {
    k < |records| && Start(records, k) < offset
  }

  /** A reader at byte `offset` stands at the first record that begins there, or within one, or at the end. */
  predicate Lands(records: seq<Bytes>, offset: nat, index: nat, count: nat) {
    && index <= |records|
    && if count > 0 then Passed(records, offset, index) else index == 0 || Passed(records, offset, index - 1)
  }

  /** A size that is reached from `lo` is no larger than what the records passed make necessary. */
  ghost predicate Bounded(records: seq<Bytes>, offset: nat, lo: nat, size: nat) {
    forall n :: Doubling(n) && lo <= n && (forall k: nat :: Passed(records, offset, k) ==> |records[k]| < n) ==> size <= n
  }

  lemma BoundedStep(records: seq<Bytes>, offset: nat, lo: nat, size: nat, k: nat)
    requires Bounded(records, offset, lo, size) && Doubling(size) && Passed(records, offset, k) && size <= |records[k]|
    ensures Bounded(records, offset, lo, 2 * size)
  {
    forall n | Doubling(n) && lo <= n && forall k: nat :: Passed(records, offset, k) ==> |records[k]| < n
      ensures 2 * size <= n
    {
      NextDoubling(size, n);
    }
  }

  class SeqFile {
    const records: seq<Bytes>
    var buf: Bytes
    var size: nat
    var from: nat
    var count: nat
    var index: nat
    var pos: nat            // f_pos

    ghost predicate Valid()
      reads this
    {
      Inv(records, Seq(buf, size, from, count, index, pos))
    }

    constructor (records: seq<Bytes>)
      ensures this.records == records && Valid() && pos == size == count == index == 0
    {
      this.records := records;
      buf, size, from, count, index, pos := [], 0, 0, 0, 0, 0;
    }

    /** Grab a buffer if there is none yet. */
    method Grab()
      requires |buf| == size
      modifies this`buf, this`size
      ensures size == (if old(size) == 0 then PAGE_SIZE else old(size)) && |buf| == size
      ensures old(size) > 0 ==> buf == old(buf)
    {
      if size == 0 {
        size := PAGE_SIZE;
        buf := Zeros(size);
      }
    }

    method NewBuffer()
      modifies this`buf, this`size
      ensures size == 2 * old(size) && |buf| == size && (Doubling(old(size)) ==> Doubling(size))
    {
      size := 2 * size;
      buf := Zeros(size);
    }

    /** `show`: print record `k` after the first `count` bytes; `count == size` means that it did not fit. */
    method Show(k: nat)
      requires k < |records| && |buf| == size && count < size
      modifies this`buf, this`count
      ensures |buf| == size && buf[..old(count)] == old(buf[..count])
      ensures if old(count) + |records[k]| < size then
                count == old(count) + |records[k]| && buf[old(count)..count] == records[k]
              else count == size
    {
      var r := records[k];
      if count + |r| < size {
        buf := buf[..count] + r + buf[count + |r|..];
        count := count + |r|;
      } else {
        buf := buf[..count] + r[..size - count];
        count := size;
      }
    }

    /** The first part of `seq_read`: hand out what is left in the buffer. */
    method Flush(want: nat) returns (out: Bytes)
      requires Valid()
      modifies this`from, this`count, this`index, this`pos
      ensures Valid() && out == Part(records, old(pos), pos) && pos == old(pos) + Min(old(count), want) == old(pos) + |out|
      ensures count == old(count) - |out|
      ensures index == if |out| == old(count) then FirstPrinted(old(count), old(index)) else old(index)
    {
      hide Flat, Start, Part;
      out := [];
      PartNone(records, pos);
      if count > 0 {
        var n := Min(count, want);
        RecordInStream(records, index);
        out := buf[from..from + n];
        PartSplit(records, pos, n, count);
        SliceSplit(buf, from, from + count, n);
        count, from, pos := count - n, from + n, pos + n;
        if count == 0 {
          index := index + 1;
        }
      }
    }

    /** The loop that puts record `index` into an empty buffer, doubling the buffer until it fits. */
    method FirstRecord() returns (found: bool)
      requires size > 0 && |buf| == size && count == 0 && Fit(records, index, size)
      modifies this`buf, this`size, this`count
      ensures found <==> index < |records|
      ensures |buf| == size && size >= old(size) && Fit(records, if found then index + 1 else index, size)
      ensures found ==> count == |records[index]| < size && buf[..count] == records[index]
      ensures !found ==> count == 0
      ensures size == if found then SizeFrom(|records[index]|, old(size)) else old(size)
      ensures found && |records[index]| < old(size) ==> size == old(size)
    {
      while true
        invariant size >= old(size) && |buf| == size && count == 0 && Fit(records, index, size)
        invariant index < |records| ==> SizeFrom(|records[index]|, size) == SizeFrom(|records[index]|, old(size))
        invariant index >= |records| ==> size == old(size)
        decreases if index < |records| then |records[index]| - size else 0
      {
        if index >= |records| { return false; }
        Show(index);
        if count < size { return true; }
        NewBuffer();
        count := 0;
      }
    }

    /** Add more records to the buffer while they fit and are asked for; `at` is the last one added. */
    method AddRecords(want: nat) returns (at: nat)
      requires |buf| == size && index < |records| && pos == Start(records, index) && Fit(records, index + 1, size)
      requires count == |records[index]| < size && buf[..count] == records[index]
      modifies this`buf, this`count
      ensures |buf| == size && index <= at < |records| && count < size && Fit(records, at + 1, size)
      ensures Start(records, at) <= pos + want && pos + count == Start(records, at + 1)
      ensures buf[..count] == Part(records, pos, pos + count)
      ensures want > 0 ==> (count == 0 <==> old(count) == 0 && Hidden(records, index, size))
      ensures count < want ==> at + 1 == |records| || count + |records[at + 1]| >= size
    {
      hide Flat, Start, Part;
      at := index;
      RecordInStream(records, index);
      ghost var j := NextNonEmpty(records, index);
      while count < want
        invariant index <= at < |records| && |buf| == size && count < size && Fit(records, at + 1, size)
        invariant Start(records, at) <= pos + want && pos + count == Start(records, at + 1)
        invariant buf[..count] == Part(records, pos, pos + count)
        invariant at < j ==> count == 0
        invariant at >= j ==> count > 0 && (j == index || |records[j]| < size)
        decreases |records| - at
      {
        var offs, next := count, at + 1;
        if next == |records| { break; }
        RecordInStream(records, next);
        Show(next);
        if count == size {
          count := offs;
          break;
        }
        assert buf[..count] == buf[..offs] + buf[offs..count];
        PartJoin(records, pos, pos + offs, pos + count);
        at := next;
      }
    }

    /** The last part of `seq_read`: fill the buffer and copy as much as is wanted. */
    method Fill(want: nat) returns (out: Bytes)
      requires |buf| == size && index < |records| && pos == Start(records, index) && Fit(records, index + 1, size)
      requires count == |records[index]| < size && buf[..count] == records[index]
      modifies this`buf, this`from, this`count, this`index, this`pos
      ensures Valid() && |out| <= want && pos == old(pos) + |out| && out == Part(records, old(pos), pos)
      ensures want > 0 ==> (out == [] <==> old(count) == 0 && Hidden(records, old(index), size))
      ensures |out| == Min(want, Room(records, old(index), size))
    {
      hide Flat, Start, Part, Hidden, Room;
      var at := AddRecords(want);
      RoomIs(records, index, at, size, count, want);
      RecordInStream(records, at);
      var n := Min(count, want);
      out := buf[..n];
      PartSplit(records, pos, n, count);
      assert out == buf[..count][..n] && buf[n..count] == buf[..count][n..];
      count, pos := count - n, pos + n;
      if count > 0 { from := n; } else { at := at + 1; }
      index := at;
    }

    /** `seq_read`: at most `want` bytes, and exactly those that come next. */
    method SeqRead(want: nat) returns (out: Bytes)
      requires Valid()
      modifies this
      ensures Valid() && |out| <= want && pos == old(pos) + |out| && out == Part(records, old(pos), pos)
      ensures want > 0 ==> (out == [] <==> Stalls(records, old(count), old(index), old(size)))
      ensures var i := FirstPrinted(old(count), old(index));
              && |out| == Min(want, old(count) + Room(records, i, PrintSize(records, i, old(size))))
              && (want > old(count) ==> size == PrintSize(records, i, old(size)))
    {
      hide Flat, Start, Part, NextNonEmpty, Room, SizeFrom;
      RoomPositive(records, FirstPrinted(count, index), PrintSize(records, FirstPrinted(count, index), size));
      Grab();
      out := Flush(want);
      var left := want - |out|;
      if out != [] && left == 0 { return; }
      if count > 0 { return; }
      var found := FirstRecord();
      if found {
        ghost var mid := pos;
        AtStart(records, Seq(buf, size, from, 0, index, pos));
        var more := Fill(left);
        JoinParts(records, old(pos), mid, pos, out, more);
        out := out + more;
      }
    }

    /** `traverse`: print records from the first on until byte `offset` is reached; again, with a larger buffer. */
    method Traverse(offset: nat) returns (again: bool)
      requires |buf| == size && Doubling(Grabbed(size))
      modifies this`buf, this`size, this`from, this`count, this`index
      ensures |buf| == size && Doubling(Grabbed(size))
      ensures !again ==> Inv(records, Seq(buf, size, from, count, index, offset)) && Grabbed(size) == Grabbed(old(size))
      ensures !again ==> Lands(records, offset, index, count)
      ensures again ==>
                && size == 2 * Grabbed(old(size))
                && exists k: nat :: Passed(records, offset, k) && Grabbed(old(size)) <= |records[k]|
    {
      hide Flat, Start, Part, MaxLength, Doubling;
      StartZero(records);
      index, count, from := 0, 0, 0;
      if offset == 0 { return false; }
      Grab();
      var at := 0;
      while index < |records|
        invariant |buf| == size == Grabbed(old(size)) && Fit(records, index, size)
        invariant count == 0 && at == Start(records, index) < offset && Lands(records, offset, index, 0)
        decreases |records| - index
      {
        RecordInStream(records, index);
        Show(index);
        if count == size {
          assert Passed(records, offset, index);
          NewBuffer();
          return true;
        }
        if at + count > offset {
          from := offset - at;
          PartSplit(records, at, from, count);
          assert buf[from..count] == buf[..count][from..];
          count := count - from;
          return false;
        }
        at, count := at + count, 0;
        index := index + 1;
        if at == offset { return false; }
      }
      return false;
    }

    /** `seq_lseek`: set the position, from the start (0) or from where we are (1). */
    method SeqLseek(offset: int, origin: nat) returns (ret: int)
      requires Valid()
      modifies this
      ensures Valid()
      ensures var target := if origin == 1 then offset + old(pos) else offset;
              if origin > 1 || target < 0 then ret == -EINVAL && pos == old(pos)
              else
                && ret == pos == target
                && (target == old(pos) ==> size == old(size) && count == old(count) && index == old(index))
                && (target != old(pos) ==>
                      Lands(records, target, index, count) && Bounded(records, target, Grabbed(old(size)), Grabbed(size)))
    {
      if origin > 1 { return -EINVAL; }
      var target := if origin == 1 then offset + pos else offset;
      if target < 0 { return -EINVAL; }
      if target != pos {
        var again := true;
        while again
          invariant |buf| == size && Doubling(Grabbed(size)) && Bounded(records, target, Grabbed(old(size)), Grabbed(size))
          invariant pos == old(pos)
          invariant !again ==> Inv(records, Seq(buf, size, from, count, index, target)) && Lands(records, target, index, count)
          decreases again, 2 * MaxLength(records) - size
        {
          ghost var size0 := size;
          again := Traverse(target);
          if again {
            ghost var k: nat :| Passed(records, target, k) && Grabbed(size0) <= |records[k]|;
            LengthBound(records, k);
            BoundedStep(records, target, Grabbed(old(size)), Grabbed(size0), k);
          }
        }
        pos := target;
      }
      return target;
    }

    /**
     Reading on until a read returns nothing. What has been read is what lies between the positions; of a smooth
     file it is everything from the old position to the end.
     */
    method ReadAll(want: nat) returns (all: Bytes)
      requires Valid() && want > 0
      modifies this
      ensures Valid() && all == Part(records, old(pos), pos) && pos == old(pos) + |all|
      ensures Smooth(records) ==> all == Part(records, old(pos), |Flat(records)|)
    {
      hide Flat, Start, Part, NextNonEmpty, Smooth, Inv;
      all := [];
      PartNone(records, pos);
      while true
        invariant Valid() && all == Part(records, old(pos), pos) && pos == old(pos) + |all|
        decreases |Flat(records)| - pos
      {
        ghost var m := Seq(buf, size, from, count, index, pos);
        if Smooth(records) { StallsOnlyAtEnd(records, m); }
        var out := SeqRead(want);
        PartEnd(records, old(pos), pos);
        PartEnd(records, m.pos, pos);
        if out == [] {
          break;
        }
        JoinParts(records, old(pos), m.pos, pos, all, out);
        all := all + out;
      }
    }

    /** Any sequence of reads and seeks sees the concatenation of the records, from the position at the time. */
    method Session(calls: seq<Call>) returns (outs: seq<Bytes>)
      requires Valid()
      modifies this
      ensures Valid() && Sees(records, old(pos), calls, outs)
    {
      hide Flat, Start, Part, MaxLength, Inv;
      outs := [];
      if calls != [] {
        var out := [];
        match calls[0] {
          case Read(want) =>
            if Smooth(records) { StallsOnlyAtEnd(records, Seq(buf, size, from, count, index, pos)); }
            out := SeqRead(want);
          case Seek(offset, origin) => var _ := SeqLseek(offset, origin);
        }
        outs := Session(calls[1..]);
        assert ([out] + outs)[1..] == outs;
        outs := [out] + outs;
      }
    }
  }

  lemma StartZero(records: seq<Bytes>)
    ensures Start(records, 0) == 0
  {
  }

  /** Nothing is left to read exactly if the remaining records are all empty. */
  lemma {:induction false} EndReached(records: seq<Bytes>, k: nat)
    requires k <= |records|
    ensures Start(records, k) >= |Flat(records)| <==> NextNonEmpty(records, k) == |records|
    decreases |records| - k
  {
    FlatPrefix(records, k);
    if k == |records| {
      assert records[..k] == records;
    } else {
      RecordInStream(records, k);
      if records[k] == [] { EndReached(records, k + 1); }
    }
  }

  /** The buffer of a reader is at least as large as the records before its place make necessary. */
  lemma FitIsLarge(records: seq<Bytes>, n: nat, size: nat)
    requires Fit(records, n, size)
    ensures LeastSize(MaxLength(records[..n])) <= Grabbed(size)
  {
    MaxLengthReached(records[..n], Grabbed(size));
    LeastOfSizes(MaxLength(records[..n]), PAGE_SIZE, Grabbed(size));
  }

  /** A smooth file has more to read exactly if a read returns something. */
  lemma StallsOnlyAtEnd(records: seq<Bytes>, m: Seq)
    requires Inv(records, m) && Smooth(records)
    ensures Stalls(records, m.count, m.index, m.size) <==> m.pos >= |Flat(records)|
  {
    hide LeastSize, MaxLength, Doubling;
    EndReached(records, m.index);
    if m.count > 0 {
      RecordInStream(records, m.index);
    } else {
      FitIsLarge(records, m.index, m.size);
      assert m.index < |records| ==> !Rough(records, m.index);
    }
  }

  lemma {:induction false} NextSkips(records: seq<Bytes>, i: nat, k: nat)
    requires i <= k <= |records| && forall n :: i <= n < k ==> records[n] == []
    ensures NextNonEmpty(records, i) == NextNonEmpty(records, k)
    decreases k - i
  {
    if i < k { NextSkips(records, i + 1, k); }
  }

  /** Where a seek to record `i` puts a reader: at an empty record from which `i` is reached over empty ones only. */
  lemma LandsBefore(records: seq<Bytes>, m: Seq, i: nat)
    requires i < |records| && records[i] == []
    requires Inv(records, m) && m.pos == Start(records, i) && Lands(records, m.pos, m.index, m.count)
    ensures m.count == 0 && m.index <= i && records[m.index] == []
    ensures NextNonEmpty(records, m.index) == NextNonEmpty(records, i)
  {
    hide Flat, Start, Part, NextNonEmpty, Fit;
    if m.count > 0 {
      if i <= m.index { StartMonotone(records, i, m.index); } else { StartMonotone(records, m.index + 1, i); }
      assert false;
    }
    if i < m.index { StartMonotone(records, i, m.index - 1); assert false; }
    StartMonotone(records, m.index, i);
    NextSkips(records, m.index, i);
  }

  /** There a reader whose buffer is no larger than necessary stalls, if the file is rough. */
  lemma StallsThere(records: seq<Bytes>, m: Seq, i: nat)
    requires i < |records| && Rough(records, i)
    requires Inv(records, m) && m.pos == Start(records, i) && Lands(records, m.pos, m.index, m.count)
    requires Grabbed(m.size) <= LeastSize(MaxLength(records[..i]))
    ensures Stalls(records, m.count, m.index, m.size) && m.pos < |Flat(records)|
  {
    hide Inv, LeastSize, MaxLength, Start;
    LandsBefore(records, m, i);
    EndReached(records, i);
  }

  /** The records before record `i` all fit the buffer that they make necessary. */
  lemma PrefixFits(records: seq<Bytes>, i: nat, k: nat)
    requires k < i <= |records|
    ensures |records[k]| < LeastSize(MaxLength(records[..i]))
  {
    LengthBound(records[..i], k);
    assert records[..i][k] == records[k];
  }

  /** In no state of any reader does a read stall before the end, exactly if the file is smooth. */
  lemma SmoothIff(records: seq<Bytes>)
    ensures Smooth(records) <==>
            forall m :: Inv(records, m) ==> (Stalls(records, m.count, m.index, m.size) <==> m.pos >= |Flat(records)|)
  {
    hide LeastSize, MaxLength, Flat;
    if Smooth(records) {
      forall m | Inv(records, m) ensures Stalls(records, m.count, m.index, m.size) <==> m.pos >= |Flat(records)| {
        StallsOnlyAtEnd(records, m);
      }
    } else {
      var i :| 0 <= i < |records| && Rough(records, i);
      var size := LeastSize(MaxLength(records[..i]));
      SizeFacts(MaxLength(records[..i]));
      var m := Seq(Zeros(size), size, 0, 0, i, Start(records, i));
      forall k | 0 <= k < i ensures |records[k]| < size { PrefixFits(records, i, k); }
      assert Inv(records, m);
      EndReached(records, i);
    }
  }

  lemma SizeFacts(n: nat)
    ensures LeastSize(n) >= PAGE_SIZE && Doubling(LeastSize(n))
  {
  }

  /**
   A reader that shows it: a file that is rough at record `i` is opened, the reader seeks there and asks for one byte,
   and gets none although there are some.
   */
  method ReadRough(records: seq<Bytes>, i: nat) returns (out: Bytes, pos: nat)
    requires i < |records| && Rough(records, i)
    ensures out == [] && pos == Start(records, i) < |Flat(records)|
  {
    hide Inv, LeastSize, MaxLength, Flat, Rough;
    var f := new SeqFile(records);
    var offset := Offset(records, i);
    ghost var least := LeastSize(MaxLength(records[..i]));
    SizeFacts(MaxLength(records[..i]));
    forall k: nat | Passed(records, offset, k) ensures |records[k]| < least { PassedBefore(records, i, k); }
    StartZero(records);
    var _ := f.SeqLseek(offset, 0);
    StallsThere(records, Seq(f.buf, f.size, f.from, f.count, f.index, f.pos), i);
    out := f.SeqRead(1);
    pos := f.pos;
  }

  lemma PassedBefore(records: seq<Bytes>, i: nat, k: nat)
    requires i <= |records| && Passed(records, Start(records, i), k)
    ensures k < i && |records[k]| < LeastSize(MaxLength(records[..i]))
  {
    hide LeastSize, MaxLength;
    if i <= k { StartMonotone(records, i, k); assert false; }
    PrefixFits(records, i, k);
  }

  /** The sum of the lengths of the first records. */
  method Offset(records: seq<Bytes>, i: nat) returns (offset: nat)
    requires i <= |records|
    ensures offset == Start(records, i)
  {
    hide Flat;
    StartZero(records);
    offset := 0;
    for k := 0 to i
      invariant offset == Start(records, k)
    {
      StartNext(records, k);
      offset := offset + |records[k]|;
    }
  }

  /** An empty record followed by one longer than the buffer makes the file look empty at first. */
  lemma LooksEmpty(r: Bytes)
    requires |r| >= PAGE_SIZE
    ensures Stalls([[], r], 0, 0, 0) && Part([[], r], 0, |r|) == r
  {
    var records := [[], r];
    assert NextNonEmpty(records, 0) == 1 by { assert NextNonEmpty(records, 1) == 1; }
    StartZero(records);
    RecordInStream(records, 0);
    RecordInStream(records, 1);
  }

  lemma AtStart(records: seq<Bytes>, m: Seq)
    requires Inv(records, m) && m.count == 0 && m.index < |records|
    ensures m.pos == Start(records, m.index)
  {
  }

  lemma JoinParts(records: seq<Bytes>, a: nat, b: nat, c: nat, x: Bytes, y: Bytes)
    requires x == Part(records, a, b) && y == Part(records, b, c) && b == a + |x| && c == b + |y|
    ensures x + y == Part(records, a, c)
  {
  }

  lemma PartEnd(records: seq<Bytes>, a: nat, b: nat)
    ensures Part(records, a, b) != [] ==> b <= |Flat(records)|
    ensures b >= |Flat(records)| && b == a + |Part(records, a, b)| ==> Part(records, a, b) == Part(records, a, |Flat(records)|)
  {
  }

  lemma PartNone(records: seq<Bytes>, a: nat)
    ensures Part(records, a, a) == []
  {
  }

  lemma PartSplit(records: seq<Bytes>, a: nat, n: nat, c: nat)
    requires n <= c && a + c <= |Flat(records)|
    ensures Part(records, a, a + c)[..n] == Part(records, a, a + n)
    ensures Part(records, a, a + c)[n..] == Part(records, a + n, a + c)
  {
  }
}
