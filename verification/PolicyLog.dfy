/**
 The log of forbidden activities kept for a process: a ring written by the system calls that are refused
 (`do_fork`, `sys_wait4`, `sys_sched_yield`) and read by `sys_get_process_log`.
 */
module PolicyLog {
  import opened Rings

  /** `forbidden_activity_info`. */
  datatype Info = Info(syscallReqLevel: int, procLevel: int, time: int)

  const EINVAL := 22
  const ENOMEM := 12

  datatype Event = Refused(info: Info) | Fetch(k: int, copyFails: bool)

  /** The record that an event logs, if any. */
  function Entry(e: Event): seq<Info> { if e.Refused? then [e.info] else [] }

  /** The records that a run of events logs. */
  function Logged(es: seq<Event>): seq<Info> { if es == [] then [] else Entry(es[0]) + Logged(es[1..]) }

  /** How many of `n` records an event drops: all, if a full ring is asked for none. */
  function Drops(e: Event, n: nat, size: nat): nat {
    if e.Fetch? && e.k == 0 && !e.copyFails && n == size then n else 0
  }

  /** How many records there are after an event. */
  function After(e: Event, n: nat, size: nat): int {
    match e
    case Refused(_) => n + 1
    case Fetch(k, copyFails) => (if 0 <= k <= n && !copyFails then n - k else n) - Drops(e, n, size)
  }

  /** No record is logged while the ring is full, with `n` records at the start. */
  predicate NoOverrun(es: seq<Event>, n: nat, size: nat) {
    es == [] || (0 <= After(es[0], n, size) <= size && NoOverrun(es[1..], After(es[0], n, size), size))
  }

  /** How many records a run drops. */
  function Dropped(es: seq<Event>, n: nat, size: nat): nat
    requires NoOverrun(es, n, size)
  {
    if es == [] then 0 else Drops(es[0], n, size) + Dropped(es[1..], After(es[0], n, size), size)
  }

  class LogArray {
    var indexWrite: nat
    var indexRead: nat
    var full: bool
    const array_: array<Info>

    /** Not overrun: a full ring begins where the next record would be written. */
    ghost predicate Valid()
      reads this
    {
      && (array_.Length > 0 ==> indexRead < array_.Length && indexWrite < array_.Length)
      && (array_.Length == 0 ==> indexRead == 0 && indexWrite == 0 && !full)
      && (full ==> indexRead == indexWrite)
    }

    ghost function Count(): (n: nat)
      requires Valid()
      reads this
      ensures n <= array_.Length && (full <==> n == array_.Length > 0)
    {
      if full then array_.Length
      else if indexWrite >= indexRead then indexWrite - indexRead
      else array_.Length - indexRead + indexWrite
    }

    /** The records not yet read, oldest first. */
    ghost function Contents(): (s: seq<Info>)
      requires Valid()
      reads this, array_
      ensures |s| == Count()
    {
      Ring(array_[..], indexRead, Count())
    }

    /** `sys_enable_policy`. */
    constructor (size: nat, blank: Info)
      ensures Valid() && fresh(array_) && array_.Length == size && Contents() == []
    {
      array_ := new Info[size](i => blank);
      indexRead, indexWrite, full := 0, 0, false;
    }

    /**
     What a refused system call does. The record is added to those not yet read exactly if the ring was not
     full. A full ring is overrun: the new record is then the one that a reader gets first.
     */
    method Append(r: Info)
      requires Valid() && array_.Length > 0
      modifies this, array_
      ensures Valid() && Contents() == old(Contents()) + [r] <==> !old(full)
      ensures old(full) ==> full && indexRead == old(indexRead) && array_[indexRead] == r
      ensures Valid() <==> !old(full) || array_.Length == 1
    {
      hide Ring;
      ghost var a := array_[..];
      if !full { RingAdd(a, indexRead, Count(), [r]); }
      array_[indexWrite] := r;
      assert array_[..] == a[..indexWrite] + [r] + a[indexWrite + 1..];
      indexWrite := indexWrite + 1;
      if indexWrite == array_.Length {
        indexWrite := 0;
      }
      if indexWrite == indexRead {
        full := true;
      }
    }

    /** The tests of `sys_get_process_log` on the number of records: are there `k`? */
    method Enough(k: int) returns (ok: bool)
      requires Valid()
      ensures ok <==> 0 <= k <= Count()
    {
      var size := array_.Length;
      if k > size || k < 0 { return false; }
      if !full {
        if indexWrite == indexRead && k > 0 { return false; }
        if indexWrite >= indexRead {
          if indexWrite - indexRead < k { return false; }
        } else if size - indexRead + indexWrite < k {
          return false;
        }
      }
      return true;
    }

    /** The loop that copies the records out; the read index moves on by `k`. */
    method CopyOut(k: nat) returns (temp: seq<Info>)
      requires k <= array_.Length && (array_.Length > 0 ==> indexRead < array_.Length)
      requires array_.Length == 0 ==> indexRead == 0
      modifies this`indexRead
      ensures temp == Ring(array_[..], old(indexRead), k)
      ensures indexRead == if array_.Length == 0 then 0 else Moved(old(indexRead), k, array_.Length)
    {
      temp := [];
      var writeCurr := 0;
      while writeCurr < k
        invariant 0 <= writeCurr <= k && |temp| == writeCurr
        invariant indexRead == if array_.Length == 0 then 0 else Moved(old(indexRead), writeCurr, array_.Length)
        invariant temp == Ring(array_[..], old(indexRead), writeCurr)
      {
        RingSplit(array_[..], old(indexRead), writeCurr + 1, writeCurr);
        temp := temp + [array_[indexRead]];
        indexRead := indexRead + 1;
        if indexRead == array_.Length {
          indexRead := 0;
        }
        writeCurr := writeCurr + 1;
      }
    }

    /**
     `sys_get_process_log`: the oldest `k` records. Refused, and nothing changed, if there are fewer than `k`
     or the copy fails. What is left are the other records, unless none was asked for and the ring was full.
     */
    method GetProcessLog(k: int, copyFails: bool) returns (ret: int, out: seq<Info>)
      requires Valid()
      modifies this
      ensures Valid()
      ensures ret == if k < 0 || k > old(Count()) then -EINVAL else if copyFails then -ENOMEM else 0
      ensures ret != 0 ==> indexRead == old(indexRead) && indexWrite == old(indexWrite) && full == old(full)
      ensures ret != 0 ==> Contents() == old(Contents()) && out == []
      ensures ret == 0 ==> out == old(Contents())[..k]
      ensures ret == 0 ==> (Contents() == old(Contents())[k..] <==> !(k == 0 && old(full)))
      ensures ret == 0 && k == 0 && old(full) ==> Contents() == []
    {
      hide Ring;
      out := [];
      var size := array_.Length;
      var enough := Enough(k);
      if !enough { return -EINVAL, out; }
      RingSplit(array_[..], indexRead, Count(), k);
      var prev := indexRead;
      var temp := CopyOut(k);
      if copyFails {
        indexRead := prev;
        return -ENOMEM, out;
      }
      full := false;
      if k == size {
        indexWrite, indexRead := 0, 0;
      }
      out := temp;
      ret := 0;
    }

    /** One event of a run: unless it drops records, none is lost, repeated or moved. */
    method Handle(e: Event) returns (out: seq<Info>)
      requires Valid() && 0 <= After(e, Count(), array_.Length) <= array_.Length
      modifies this, array_
      ensures Valid() && Count() == After(e, old(Count()), array_.Length)
      ensures |out| + Count() + Drops(e, old(Count()), array_.Length) == old(Count()) + |Entry(e)|
      ensures Drops(e, old(Count()), array_.Length) == 0 ==> out + Contents() == old(Contents()) + Entry(e)
    {
      hide Ring, Valid, Count, Contents;
      out := [];
      match e {
        case Refused(info) => Append(info);
        case Fetch(k, copyFails) =>
          var ret;
          ret, out := GetProcessLog(k, copyFails);
      }
    }

    /**
     A whole run of refused calls and reads. What the reads return, in order, followed by what is still in the
     ring, is everything logged, in order, exactly if no read of a full ring asked for nothing.
     */
    method Session(es: seq<Event>) returns (delivered: seq<Info>)
      requires Valid() && NoOverrun(es, Count(), array_.Length)
      modifies this, array_
      ensures Valid()
      ensures |delivered| + Count() + Dropped(es, old(Count()), array_.Length) == old(Count()) + |Logged(es)|
      ensures delivered + Contents() == old(Contents()) + Logged(es) <==> Dropped(es, old(Count()), array_.Length) == 0
    {
      hide Ring, Valid, Count, Contents, Drops, After, Entry;
      delivered := [];
      ghost var c0 := Contents();
      ghost var dropped: nat := 0;
      for i := 0 to |es|
        invariant Valid() && NoOverrun(es[i..], Count(), array_.Length)
        invariant dropped + Dropped(es[i..], Count(), array_.Length) == Dropped(es, |c0|, array_.Length)
        invariant |delivered| + Count() + dropped + |Logged(es[i..])| == |c0| + |Logged(es)|
        invariant dropped == 0 ==> delivered + Contents() + Logged(es[i..]) == c0 + Logged(es)
      {
        ghost var c, d, rest := Contents(), delivered, Logged(es[i + 1..]);
        assert es[i..][0] == es[i] && es[i..][1..] == es[i + 1..];
        dropped := dropped + Drops(es[i], Count(), array_.Length);
        var out := Handle(es[i]);
        delivered := delivered + out;
        if dropped == 0 {
          assert d + out + Contents() == d + (out + Contents());
          assert d + (out + Contents()) + rest == d + (c + Entry(es[i])) + rest == d + c + (Entry(es[i]) + rest);
        }
      }
    }
  }
}
