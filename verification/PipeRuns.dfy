/**
 Any interleaving of reads and writes on one pipe.
 */
module PipeRuns {
  import opened Basics
  import opened Pipe

  /** A call of write, and how much of its data is in the pipe or read already. */
  datatype Call = Call(data: Bytes, written: nat)

  /** Bytes put into the pipe at one time by one call. */
  datatype Chunk = Chunk(call: nat, data: Bytes)

  datatype State = State(contents: Bytes, calls: seq<Call>, log: seq<Chunk>, delivered: Bytes)

  /** The beginning of a call of write; a section of one, under the semaphore; a section of a read. */
  datatype Event = Begin(data: Bytes) | Write(i: nat) | Read(count: nat)

  function Free(st: State): nat { if |st.contents| <= PIPE_SIZE then PIPE_SIZE - |st.contents| else 0 }

  predicate Enabled(st: State, e: Event) {
    match e
    case Begin(data) => data != []
    case Write(i) => i < |st.calls| && st.calls[i].written < |st.calls[i].data|
    case Read(_) => true
  }

  /** A writer that finds no room changes nothing. */
  function Step(st: State, e: Event): State
    requires Enabled(st, e)
  {
    match e
    case Begin(data) => st.(calls := st.calls + [Call(data, 0)])
    case Write(i) =>
      var c := st.calls[i];
      var n := Accepted(|c.data|, c.written, Free(st));
      var chunk := c.data[c.written..n];
      if chunk == [] then st
      else
        st.(contents := st.contents + chunk, calls := st.calls[i := c.(written := n)], log := st.log + [Chunk(i, chunk)])
    case Read(count) =>
      var n := Min(count, |st.contents|);
      st.(contents := st.contents[n..], delivered := st.delivered + st.contents[..n])
  }

  function Joined(log: seq<Chunk>): Bytes {
    if log == [] then [] else Joined(log[..|log| - 1]) + log[|log| - 1].data
  }

  /** The bytes of one call, in the order in which they went in. */
  function Of(log: seq<Chunk>, i: nat): Bytes {
    if log == [] then []
    else Of(log[..|log| - 1], i) + if log[|log| - 1].call == i then log[|log| - 1].data else []
  }

  predicate CallOk(st: State, i: nat)
    requires i < |st.calls|
  {
    var c := st.calls[i];
    && c.written <= |c.data| && Of(st.log, i) == c.data[..c.written]
    && (|c.data| <= PIPE_BUF ==> c.written == 0 || c.written == |c.data|)
  }

  /** A chunk of a small write is the whole of it. */
  predicate ChunkOk(st: State, k: nat)
    requires k < |st.log|
  {
    var c := st.log[k];
    c.call < |st.calls| && (|st.calls[c.call].data| <= PIPE_BUF ==> c.data == st.calls[c.call].data)
  }

  ghost predicate Inv(st: State) {
    && |st.contents| <= PIPE_SIZE && Joined(st.log) == st.delivered + st.contents
    && (forall i :: 0 <= i < |st.calls| ==> CallOk(st, i))
    && (forall k :: 0 <= k < |st.log| ==> ChunkOk(st, k))
  }

  lemma {:induction false} OfNone(log: seq<Chunk>, i: nat)
    requires forall k :: 0 <= k < |log| ==> log[k].call != i
    ensures Of(log, i) == []
  {
    if log != [] { OfNone(log[..|log| - 1], i); }
  }

  lemma WriteInv(st: State, i: nat)
    requires Inv(st) && Enabled(st, Write(i))
    ensures Inv(Step(st, Write(i)))
  {
    var st', c := Step(st, Write(i)), st.calls[i];
    if st' == st { return; }
    var chunk := st'.log[|st.log|];
    assert CallOk(st, i);
    assert st'.log[..|st.log|] == st.log;
    assert st'.delivered + st'.contents == (st.delivered + st.contents) + chunk.data;
    forall j | 0 <= j < |st'.calls| ensures CallOk(st', j) {
      assert CallOk(st, j);
      if j == i { assert c.data[..st'.calls[i].written] == c.data[..c.written] + chunk.data; }
    }
    forall k | 0 <= k < |st'.log| ensures ChunkOk(st', k) {
      if k < |st.log| { assert ChunkOk(st, k); }
    }
  }

  lemma StepInv(st: State, e: Event)
    requires Inv(st) && Enabled(st, e)
    ensures Inv(Step(st, e))
  {
    var st' := Step(st, e);
    match e
    case Begin(data) =>
      forall j | 0 <= j < |st'.calls| ensures CallOk(st', j) {
        if j < |st.calls| {
          assert CallOk(st, j);
        } else {
          forall k | 0 <= k < |st.log| ensures st.log[k].call != j { assert ChunkOk(st, k); }
          OfNone(st.log, j);
        }
      }
      forall k | 0 <= k < |st'.log| ensures ChunkOk(st', k) { assert ChunkOk(st, k); }
    case Write(i) => WriteInv(st, i);
    case Read(count) =>
      var n := Min(count, |st.contents|);
      assert st.contents == st.contents[..n] + st.contents[n..];
      forall j | 0 <= j < |st'.calls| ensures CallOk(st', j) { assert CallOk(st, j); }
      forall k | 0 <= k < |st'.log| ensures ChunkOk(st', k) { assert ChunkOk(st, k); }
  }

  predicate Possible(st: State, run: seq<Event>)
    decreases |run|
  {
    run == [] || (Enabled(st, run[0]) && Possible(Step(st, run[0]), run[1..]))
  }

  function Final(st: State, run: seq<Event>): State
    requires Possible(st, run)
    decreases |run|
  {
    if run == [] then st else Final(Step(st, run[0]), run[1..])
  }

  lemma {:induction false} RunInv(st: State, run: seq<Event>)
    requires Inv(st) && Possible(st, run)
    ensures Inv(Final(st, run))
    decreases |run|
  {
    if run != [] {
      StepInv(st, run[0]);
      RunInv(Step(st, run[0]), run[1..]);
    }
  }

  const EMPTY := State([], [], [], [])

  /** The data of the calls of write that a run begins. */
  function Begun(run: seq<Event>): seq<Bytes> {
    if run == [] then [] else (if run[0].Begin? then [run[0].data] else []) + Begun(run[1..])
  }

  /** The calls are those that the run begins, after those there were. */
  lemma {:induction false} RunCalls(st: State, run: seq<Event>)
    requires Possible(st, run)
    ensures var n, calls := |st.calls|, Final(st, run).calls;
            && |calls| == n + |Begun(run)|
            && (forall i :: 0 <= i < n ==> calls[i].data == st.calls[i].data)
            && (forall i :: 0 <= i < |Begun(run)| ==> calls[n + i].data == Begun(run)[i])
    decreases |run|
  {
    if run != [] {
      var st1, m := Step(st, run[0]), |Begun(run)| - |Begun(run[1..])|;
      RunCalls(st1, run[1..]);
      forall i | 0 <= i < |Begun(run)| ensures Final(st, run).calls[|st.calls| + i].data == Begun(run)[i] {
        if i >= m { assert Begun(run)[i] == Begun(run[1..])[i - m]; }
      }
    }
  }

  /**
   In every run, the bytes delivered are the first ones accepted, in order; what each call has put in are the
   first bytes of its data, in order; and the data of a write of at most 4096 bytes, PIPE_BUF, went in in one piece.
   */
  lemma EveryRun(run: seq<Event>, i: nat, k: nat)
    requires Possible(EMPTY, run)
    ensures var st := Final(EMPTY, run);
            && Joined(st.log) == st.delivered + st.contents && |st.contents| <= PIPE_SIZE
            && (i < |Begun(run)| ==> Of(st.log, i) <= Begun(run)[i])
            && (k < |st.log| ==> st.log[k].call < |Begun(run)|)
            && (k < |st.log| && st.log[k].call == i && |Begun(run)[i]| <= 4096 ==> st.log[k].data == Begun(run)[i])
  {
    hide Possible, Final, Begun, Of;
    RunInv(EMPTY, run);
    RunCalls(EMPTY, run);
    var st := Final(EMPTY, run);
    assert i < |st.calls| ==> CallOk(st, i);
    assert k < |st.log| ==> ChunkOk(st, k);
  }

  /** Nobody waits for ever: a writer that has not finished can go on as soon as the readers have emptied the pipe. */
  lemma EmptyPipeTakesMore(run: seq<Event>, i: nat)
    requires Possible(EMPTY, run) && Enabled(Final(EMPTY, run), Event.Write(i)) && Final(EMPTY, run).contents == []
    ensures var st := Final(EMPTY, run); Step(st, Event.Write(i)).calls[i].written > st.calls[i].written
  {
    hide Possible, Final;
    RunInv(EMPTY, run);
  }

  /** A call of write of more than PIPE_BUF bytes goes on whenever there is room at all. */
  lemma LargeWriteGoesOn(st: State, i: nat)
    requires Inv(st) && Enabled(st, Event.Write(i)) && |st.contents| < PIPE_SIZE && |st.calls[i].data| > PIPE_BUF
    ensures Step(st, Event.Write(i)).calls[i].written ==
            Min(|st.calls[i].data|, st.calls[i].written + PIPE_SIZE - |st.contents|)
  {
  }

  /** The users of one pipe: the calls of write so far, and what has been read. The bytes between are in the ring. */
  class Traffic {
    const pipe: Pipe
    var calls: seq<Call>
    var log: seq<Chunk>
    var delivered: Bytes

    ghost predicate Valid()
      reads this, pipe
    {
      pipe.Valid()
    }

    ghost function Value(): State
      requires Valid()
      reads this, pipe, pipe.base
    {
      State(pipe.Contents(), calls, log, delivered)
    }

    constructor ()
      ensures Valid() && fresh(pipe) && fresh(pipe.base) && Value() == EMPTY
    {
      pipe := new Pipe();
      calls, log, delivered := [], [], [];
    }

    /** A section of `pipe_write` for call `i`; also whether the writer waits. */
    method Write(i: nat, nonblock: bool) returns (waits: bool)
      requires Valid() && Enabled(Value(), Event.Write(i))
      modifies this, pipe, pipe.base
      ensures Valid() && Value() == Step(old(Value()), Event.Write(i))
      ensures waits <==> calls[i].written < |calls[i].data| && !nonblock
    {
      var c := calls[i];
      var n;
      n, waits := pipe.WriteSection(c.data, c.written, nonblock);
      if n > c.written {
        calls, log := calls[i := c.(written := n)], log + [Chunk(i, c.data[c.written..n])];
      }
    }

    /** A section of `pipe_read`; also whether the reader goes on waiting. */
    method Read(count: nat, nonblock: bool, waitingWriters: nat) returns (again: bool)
      requires Valid()
      modifies this, pipe
      ensures Valid() && Value() == Step(old(Value()), Event.Read(count))
      ensures again <==> count > |old(Value()).contents| && waitingWriters > 0 && !nonblock
    {
      var out;
      out, again := pipe.ReadSection(count, nonblock, waitingWriters);
      delivered := delivered + out;
    }

    /** Any interleaving on the ring has the outcome of the run model, and so what `EveryRun` says of it. */
    method Run(run: seq<Event>)
      requires Valid() && Possible(Value(), run)
      modifies this, pipe, pipe.base
      ensures Valid() && Value() == Final(old(Value()), run)
      decreases |run|
    {
      if run != [] {
        var nonblock: bool, waitingWriters: nat := *, *;
        match run[0] {
          case Begin(data) => calls := calls + [Call(data, 0)];
          case Write(i) => var _ := Write(i, nonblock);
          case Read(count) => var _ := Read(count, nonblock, waitingWriters);
        }
        Run(run[1..]);
      }
    }
  }
}
