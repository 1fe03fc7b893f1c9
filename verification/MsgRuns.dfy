/**
 Whole runs of a message queue: sends, receives, receivers that give up, and changes of the limit in
 any order. Messages of one type arrive in the order in which they were sent, none is lost or doubled.
 */
module MsgRuns {
  import opened Basics
  import opened MessageQueue

  /** `sent` and `delivered` record all messages accepted from senders and given to receivers. */
  datatype State = State(
    messages: seq<Msg>, receivers: seq<Receiver>, cbytes: nat, qnum: nat, qbytes: nat,
    sent: seq<Msg>, delivered: seq<Msg>)

  datatype Event =
    | Send(m: Msg)
    | Recv(r: Receiver, nowait: bool)
    | Leave(k: nat)              // the sleeping receiver at position k is interrupted, or tries again
    | SetLimit(qbytes: nat)      // IPC_SET

  function Bytes(msgs: seq<Msg>): nat { if msgs == [] then 0 else |msgs[0].text| + Bytes(msgs[1..]) }

  /** The messages of type `t`, in order. */
  function OfType(msgs: seq<Msg>, t: int): seq<Msg> {
    if msgs == [] then []
    else if msgs[0].mtype == t then [msgs[0]] + OfType(msgs[1..], t)
    else OfType(msgs[1..], t)
  }

  predicate InOrder(sent: seq<Msg>, delivered: seq<Msg>, queued: seq<Msg>, t: int) {
    OfType(sent, t) == OfType(delivered, t) + OfType(queued, t)
  }

  ghost predicate Inv(st: State) {
    && AllAcceptable(st.messages) && Quiet(st.receivers, st.messages)
    && st.cbytes == Bytes(st.messages) && st.qnum == |st.messages|
    && forall t :: InOrder(st.sent, st.delivered, st.messages, t)
  }

  /** The test of `sys_msgsnd`: there is room for the message. */
  predicate Fits(st: State, m: Msg) {
    |m.text| + st.cbytes <= st.qbytes && 1 + st.qnum <= st.qbytes
  }

  predicate Enabled(st: State, e: Event) {
    match e
    case Send(m) => Acceptable(m) && Fits(st, m)
    case Recv(_, _) => true
    case Leave(k) => k < |st.receivers|
    case SetLimit(_) => true
  }

  function AfterSend(st: State, m: Msg): State {
    var h := Pipelined(st.receivers, m);
    if h.taken then st.(receivers := h.asleep, sent := st.sent + [m], delivered := st.delivered + [m])
    else st.(receivers := h.asleep, sent := st.sent + [m], messages := st.messages + [m],
             cbytes := st.cbytes + |m.text|, qnum := st.qnum + 1)
  }

  function AfterRecv(st: State, r: Receiver, nowait: bool): State
    requires AllAcceptable(st.messages) && st.cbytes == Bytes(st.messages) && st.qnum == |st.messages|
  {
    match Receive(st.messages, r)
    case Nothing => if nowait then st else st.(receivers := st.receivers + [r])
    case Refuses => st
    case Takes(k) =>
      FindCorrect(st.messages, r.mtype, r.mode);
      BytesRemove(st.messages, k);
      st.(messages := RemoveAt(st.messages, k), delivered := st.delivered + [st.messages[k]],
          cbytes := st.cbytes - |st.messages[k].text|, qnum := st.qnum - 1)
  }

  function Step(st: State, e: Event): State
    requires Inv(st) && Enabled(st, e)
  {
    match e
    case Send(m) => AfterSend(st, m)
    case Recv(r, nowait) => AfterRecv(st, r, nowait)
    case Leave(k) => st.(receivers := RemoveAt(st.receivers, k))
    case SetLimit(n) => st.(qbytes := n)
  }

  // ---- facts about lists of messages

  lemma {:induction false} BytesConcat(a: seq<Msg>, b: seq<Msg>)
    ensures Bytes(a + b) == Bytes(a) + Bytes(b)
  {
    if a == [] {
      assert a + b == b;
    } else {
      assert (a + b)[1..] == a[1..] + b;
      BytesConcat(a[1..], b);
    }
  }

  lemma BytesRemove(msgs: seq<Msg>, k: nat)
    requires k < |msgs|
    ensures Bytes(msgs) == Bytes(RemoveAt(msgs, k)) + |msgs[k].text|
  {
    assert msgs == msgs[..k] + ([msgs[k]] + msgs[k + 1..]);
    BytesConcat(msgs[..k], [msgs[k]] + msgs[k + 1..]);
    BytesConcat([msgs[k]], msgs[k + 1..]);
    BytesConcat(msgs[..k], msgs[k + 1..]);
  }

  lemma {:induction false} OfTypeConcat(a: seq<Msg>, b: seq<Msg>, t: int)
    ensures OfType(a + b, t) == OfType(a, t) + OfType(b, t)
  {
    if a == [] {
      assert a + b == b;
    } else {
      assert (a + b)[1..] == a[1..] + b;
      OfTypeConcat(a[1..], b, t);
    }
  }

  lemma {:induction false} OfTypeNone(a: seq<Msg>, t: int)
    requires forall i :: 0 <= i < |a| ==> a[i].mtype != t
    ensures OfType(a, t) == []
  {
    if a != [] { OfTypeNone(a[1..], t); }
  }

  /** A receiver always takes the earliest queued message of its type, whatever its mode. */
  lemma EarliestOfType(msgs: seq<Msg>, mtype: int, mode: Mode, k: nat)
    requires Entitled(msgs, mtype, mode, k)
    ensures forall i :: 0 <= i < k ==> msgs[i].mtype != msgs[k].mtype
  {
  }

  lemma TakeInOrder(msgs: seq<Msg>, k: nat, t: int)
    requires k < |msgs| && forall i :: 0 <= i < k ==> msgs[i].mtype != msgs[k].mtype
    ensures OfType(msgs, t) == OfType([msgs[k]], t) + OfType(RemoveAt(msgs, k), t)
  {
    var before, after := msgs[..k], msgs[k + 1..];
    assert msgs == before + ([msgs[k]] + after);
    OfTypeConcat(before, [msgs[k]] + after, t);
    OfTypeConcat([msgs[k]], after, t);
    OfTypeConcat(before, after, t);
    if t == msgs[k].mtype {
      OfTypeNone(before, t);
    } else {
      OfTypeNone([msgs[k]], t);
    }
  }

  // ---- every event keeps the invariant

  lemma {:induction false} PipelinedFacts(rs: seq<Receiver>, m: Msg)
    ensures var h := Pipelined(rs, m);
            && (forall r :: r in h.asleep ==> r in rs)
            && (!h.taken ==> forall r :: r in h.asleep ==> !TestMsg(m, r.mtype, r.mode))
            && (h.taken ==> exists r :: r in rs && TestMsg(m, r.mtype, r.mode))
  {
    if rs != [] {
      PipelinedFacts(rs[1..], m);
      assert rs[0] in rs && forall r :: r in rs[1..] ==> r in rs;
    }
  }

  lemma SendInv(st: State, m: Msg)
    requires Inv(st) && Enabled(st, Send(m))
    ensures Inv(AfterSend(st, m))
  {
    var h, st' := Pipelined(st.receivers, m), AfterSend(st, m);
    PipelinedFacts(st.receivers, m);
    BytesConcat(st.messages, [m]);
    forall t ensures InOrder(st'.sent, st'.delivered, st'.messages, t) {
      SendOrder(st, m, t);
    }
    if !h.taken {
      forall r | r in st'.receivers ensures NoMatch(st'.messages, r.mtype, r.mode) {
        assert r in st.receivers && NoMatch(st.messages, r.mtype, r.mode);
      }
    }
  }

  lemma SendOrder(st: State, m: Msg, t: int)
    requires InOrder(st.sent, st.delivered, st.messages, t) && Quiet(st.receivers, st.messages)
    ensures var st' := AfterSend(st, m); InOrder(st'.sent, st'.delivered, st'.messages, t)
  {
    hide Pipelined, OfType;
    OfTypeConcat(st.sent, [m], t);
    OfTypeConcat(st.delivered, [m], t);
    OfTypeConcat(st.messages, [m], t);
    PipelinedFacts(st.receivers, m);
    if Pipelined(st.receivers, m).taken {
      if t == m.mtype {
        // A receiver that takes `m` would have matched a queued message of its type.
        var r :| r in st.receivers && TestMsg(m, r.mtype, r.mode);
        assert NoMatch(st.messages, r.mtype, r.mode);
        OfTypeNone(st.messages, t);
      } else {
        OfTypeNone([m], t);
      }
    }
  }

  lemma RecvInv(st: State, r: Receiver, nowait: bool)
    requires Inv(st)
    ensures Inv(AfterRecv(st, r, nowait))
  {
    var st' := AfterRecv(st, r, nowait);
    FindCorrect(st.messages, r.mtype, r.mode);
    match Receive(st.messages, r)
    case Nothing =>
      assert forall q :: q in st'.receivers ==> q in st.receivers || q == r;
    case Refuses =>
    case Takes(k) =>
      BytesRemove(st.messages, k);
      EarliestOfType(st.messages, r.mtype, r.mode, k);
      forall t ensures InOrder(st'.sent, st'.delivered, st'.messages, t) {
        assert InOrder(st.sent, st.delivered, st.messages, t);
        TakeInOrder(st.messages, k, t);
        OfTypeConcat(st.delivered, [st.messages[k]], t);
      }
      forall q | q in st'.receivers ensures NoMatch(st'.messages, q.mtype, q.mode) {
        assert NoMatch(st.messages, q.mtype, q.mode);
      }
  }

  lemma StepInv(st: State, e: Event)
    requires Inv(st) && Enabled(st, e)
    ensures Inv(Step(st, e))
  {
    match e
    case Send(m) => SendInv(st, m);
    case Recv(r, nowait) => RecvInv(st, r, nowait);
    case Leave(k) =>
      assert forall q :: q in RemoveAt(st.receivers, k) ==> q in st.receivers;
    case SetLimit(_) =>
  }

  // ---- runs

  ghost predicate Possible(st: State, run: seq<Event>)
    requires Inv(st)
    decreases |run|
  {
    run == [] || (Enabled(st, run[0]) && (StepInv(st, run[0]); Possible(Step(st, run[0]), run[1..])))
  }

  ghost function Final(st: State, run: seq<Event>): State
    requires Inv(st) && Possible(st, run)
    decreases |run|
  {
    if run == [] then st else StepInv(st, run[0]); Final(Step(st, run[0]), run[1..])
  }

  lemma {:induction false} RunInv(st: State, run: seq<Event>)
    requires Inv(st) && Possible(st, run)
    ensures Inv(Final(st, run))
    decreases |run|
  {
    if run != [] {
      StepInv(st, run[0]);
      RunInv(Step(st, run[0]), run[1..]);
    }
  }

  /** A new queue with a limit of `n` bytes. */
  function Fresh(n: nat): State { State([], [], 0, 0, n, [], []) }

  /** The messages that a run sends. */
  function Sends(run: seq<Event>): seq<Msg> {
    if run == [] then [] else (if run[0].Send? then [run[0].m] else []) + Sends(run[1..])
  }

  lemma StepSends(st: State, e: Event)
    requires Inv(st) && Enabled(st, e)
    ensures Step(st, e).sent == st.sent + if e.Send? then [e.m] else []
  {
  }

  lemma {:induction false} RunSends(st: State, run: seq<Event>)
    requires Inv(st) && Possible(st, run)
    ensures Final(st, run).sent == st.sent + Sends(run)
    decreases |run|
  {
    hide Inv, Step, Enabled;
    if run == [] {
      assert st.sent + [] == st.sent;
    } else {
      var st1, m := Step(st, run[0]), if run[0].Send? then [run[0].m] else [];
      StepInv(st, run[0]);
      StepSends(st, run[0]);
      RunSends(st1, run[1..]);
      assert st.sent + m + Sends(run[1..]) == st.sent + (m + Sends(run[1..]));
    }
  }

  /**
   In every state that a new queue can reach: no sleeping receiver matches a queued message, the counters
   are those of the queue, and of each type the messages delivered are the first ones of those that the run
   sent, in order, and the others are still queued.
   */
  lemma EveryRun(n: nat, run: seq<Event>, t: int)
    requires Possible(Fresh(n), run)
    ensures var st := Final(Fresh(n), run);
            && Quiet(st.receivers, st.messages)
            && st.cbytes == Bytes(st.messages) && st.qnum == |st.messages|
            && OfType(Sends(run), t) == OfType(st.delivered, t) + OfType(st.messages, t)
  {
    hide Possible, Final, Step, Sends;
    RunInv(Fresh(n), run);
    RunSends(Fresh(n), run);
    assert Fresh(n).sent + Sends(run) == Sends(run);
    assert InOrder(Final(Fresh(n), run).sent, Final(Fresh(n), run).delivered, Final(Fresh(n), run).messages, t);
  }
}
