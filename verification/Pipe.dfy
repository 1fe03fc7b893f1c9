/**
 `fs/pipe.c`: a pipe is a ring of one page. Bytes come out in the order in which they went in, and a
 write of at most PIPE_BUF bytes is never mixed with another.
 */
module Pipe {
  import opened Basics
  import opened Rings

  const PIPE_SIZE: nat := 4096
  const PIPE_BUF: nat := 4096

  type Bytes = seq<nat>

  /** `x & (PIPE_SIZE - 1)`. */
  function Masked(x: nat): nat { x % PIPE_SIZE }

  /** On the page, moving on by `k` is masking with `PIPE_SIZE - 1`. */
  lemma MovedIsMasked(start: nat, k: nat)
    requires start < PIPE_SIZE && k <= PIPE_SIZE
    ensures Moved(start, k, PIPE_SIZE) == Masked(start + k)
  {
  }

  /**
   How much of a write of `n` bytes is done after a section, when `written` bytes are before: as much more as there is room
   for, except that a write of at most PIPE_BUF bytes does not begin before there is room for all of it.
   */
  function Accepted(n: nat, written: nat, free: nat): nat
    requires written <= n
  {
    if written == 0 && n <= PIPE_BUF && free < n then 0 else written + Min(n - written, free)
  }

  lemma ArraySlice(a: array<nat>, i: nat, j: nat)
    requires i <= j <= a.Length
    ensures a[i..j] == a[..][i..j]
  {
  }

  class Pipe {
    const base: array<nat>
    var start: nat
    var len: nat

    ghost predicate Valid()
      reads this
    {
      base.Length == PIPE_SIZE && start < PIPE_SIZE && len <= PIPE_SIZE
    }

    ghost function Contents(): (s: Bytes)
      requires Valid()
      reads this, base
      ensures |s| == len
    {
      Ring(base[..], start, len)
    }

    constructor ()
      ensures Valid() && fresh(base) && Contents() == []
    {
      base := new nat[PIPE_SIZE];
      start, len := 0, 0;
    }

    function Free(): nat
      requires Valid()
      reads this
    {
      PIPE_SIZE - len
    }

    /** One round of the loop of `pipe_read`: a chunk up to the end of the page. */
    method ReadChunk(count: nat) returns (chunk: Bytes)
      requires Valid() && count > 0 && len > 0
      modifies this`start, this`len
      ensures Valid() && chunk + Contents() == old(Contents())
      ensures 0 < |chunk| <= count && |chunk| + len == old(len)
    {
      hide Ring, Masked;
      var chars := PIPE_SIZE - start;
      if chars > count { chars := count; }
      if chars > len { chars := len; }
      RingTake(base[..], start, len, chars);
      chunk := base[start..start + chars];
      ArraySlice(base, start, start + chars);
      MovedIsMasked(start, chars);
      start := Masked(start + chars);
      len := len - chars;
    }

    /** The loop of `pipe_read` and the reset of an empty ring. If more was asked for, the pipe is now empty. */
    method ReadLoop(wanted: nat) returns (out: Bytes)
      requires Valid()
      modifies this`start, this`len
      ensures Valid() && out + Contents() == old(Contents()) && |out| == Min(wanted, old(len)) && |out| + len == old(len)
      ensures wanted > |out| ==> len == 0
    {
      hide Ring;
      out := [];
      while wanted > |out| && len > 0
        invariant Valid() && |out| <= wanted && |out| + len == old(len)
        invariant out + Contents() == old(Contents())
        decreases len
      {
        ghost var c := Contents();
        var chunk := ReadChunk(wanted - |out|);
        assert out + c == (out + chunk) + Contents();
        out := out + chunk;
      }
      if len == 0 {
        start := 0;
      }
    }

    /** One round of the loop of `pipe_write` with room left: a chunk up to the end of the page. */
    method WriteChunk(data: Bytes) returns (chars: nat)
      requires Valid() && data != [] && len < PIPE_SIZE
      modifies this`len, base
      ensures Valid() && 0 < chars <= |data| && len == old(len) + chars
      ensures Contents() == old(Contents()) + data[..chars]
    {
      hide Ring, Masked;
      MovedIsMasked(start, len);
      var end := Masked(start + len);
      chars := PIPE_SIZE - end;
      if chars > |data| { chars := |data|; }
      if chars > PIPE_SIZE - len { chars := PIPE_SIZE - len; }
      ghost var before := base[..];
      RingAdd(before, start, len, data[..chars]);
      forall i | 0 <= i < chars { base[end + i] := data[i]; }
      assert base[..] == before[..end] + data[..chars] + before[end + chars..];
      len := len + chars;
    }

    /** The copying part of the loop of `pipe_write`: as much of `data` as there is room for. */
    method WriteLoop(data: Bytes) returns (written: nat)
      requires Valid()
      modifies this`len, base
      ensures Valid() && written == Min(|data|, PIPE_SIZE - old(len)) && len == old(len) + written
      ensures Contents() == old(Contents()) + data[..written]
    {
      hide Ring;
      written := 0;
      while written < |data| && len < PIPE_SIZE
        invariant Valid() && written <= |data| && written + old(len) == len
        invariant Contents() == old(Contents()) + data[..written]
        decreases |data| - written
      {
        ghost var c := Contents();
        var chars := WriteChunk(data[written..]);
        assert data[..written + chars] == data[..written] + data[written..][..chars];
        written := written + chars;
      }
    }

    /**
     A section of `pipe_read` under the semaphore, from where data may be read: returns with what is there,
     or goes back to waiting (`again`) when more is asked for and a writer is waiting for room. The BUG
     in that branch cannot happen.
     */
    method ReadSection(wanted: nat, nonblock: bool, waitingWriters: nat) returns (out: Bytes, again: bool)
      requires Valid()
      modifies this`start, this`len
      ensures Valid() && out + Contents() == old(Contents()) && |out| == Min(wanted, old(len))
      ensures again <==> wanted > |out| && waitingWriters > 0 && !nonblock
    {
      hide Ring;
      out := ReadLoop(wanted);
      again := wanted > |out| && waitingWriters > 0 && !nonblock;
      if again {
        if len != 0 {
          assert false;
        }
      }
    }

    /**
     A section of `pipe_write` under the semaphore: the whole of a small write or nothing of it, else as
     much as there is room for. Returns the number of bytes now written and whether the writer waits.
     */
    method WriteSection(data: Bytes, written0: nat, nonblock: bool) returns (written: nat, waits: bool)
      requires Valid() && written0 < |data|
      modifies this`len, base
      ensures Valid() && written0 <= written <= |data|
      ensures written == Accepted(|data|, written0, PIPE_SIZE - old(len)) && (waits <==> written < |data| && !nonblock)
      ensures Contents() == old(Contents()) + data[written0..written]
    {
      hide Ring;
      written := written0;
      var free := if |data| <= PIPE_BUF then |data| else 1;
      assert data[written0..written0] == [];
      if (written0 == 0 && PIPE_SIZE - len < free) || (written0 > 0 && len == PIPE_SIZE) {
        return written, !nonblock;
      }
      var n := WriteLoop(data[written0..]);
      assert data[written0..][..n] == data[written0..written0 + n];
      written := written0 + n;
      waits := written < |data| && !nonblock;
    }
  }
}
