/**
 `ipc/msg.c` in its own form: the lists of messages and sleeping receivers and the counters are
 changed in place, under one lock.
 */
module MsgQueue {
  import opened Basics
  import opened MessageQueue
  import opened MsgRuns

  const EINVAL := 22
  const EAGAIN := 11
  const E2BIG := 7
  const ENOMSG := 42

  /** Accepted, refused with an error, or asleep until there is room. */
  datatype SendReply = Accepted | SendRefused(errno: nat) | SenderSleeps

  /** A message with its text cut to the size asked for, an error, or asleep in the list of receivers. */
  datatype RecvReply = Received(mtype: int, text: seq<nat>) | RecvRefused(errno: nat) | ReceiverSleeps

  /**
   The right reply to a call: it takes the message it asks for off the queue and gets as much of the text as it has room
   for; it is refused if that is not all and it did not agree to less; and if there is none, it sleeps or is told so.
   */
  ghost predicate RightReply(q: seq<Msg>, q': seq<Msg>, a: Ask, nowait: bool, reply: RecvReply) {
    if a.msgtyp == LONG_MIN || NoneWanted(q, a.msgtyp, a.except) then
      q' == q && reply == if nowait then RecvRefused(ENOMSG) else ReceiverSleeps
    else exists k: nat :: Chosen(q, a.msgtyp, a.except, k) && RightMessage(q, q', a, k, reply)
  }

  predicate RightMessage(q: seq<Msg>, q': seq<Msg>, a: Ask, k: nat, reply: RecvReply)
    requires k < |q|
  {
    var text := q[k].text;
    if |text| > a.msgsz && !a.noerror then q' == q && reply == RecvRefused(E2BIG)
    else q' == RemoveAt(q, k) && reply == Received(q[k].mtype, text[..Min(a.msgsz, |text|)])
  }

  lemma ReplyNone(q: seq<Msg>, a: Ask, nowait: bool)
    requires a.msgtyp == LONG_MIN || NoneWanted(q, a.msgtyp, a.except)
    ensures RightReply(q, q, a, nowait, if nowait then RecvRefused(ENOMSG) else ReceiverSleeps)
  {
  }

  lemma ReplyOne(q: seq<Msg>, a: Ask, nowait: bool, k: nat)
    requires a.msgtyp != LONG_MIN && Chosen(q, a.msgtyp, a.except, k)
    ensures k < |q|
    ensures |q[k].text| > a.msgsz && !a.noerror ==> RightReply(q, q, a, nowait, RecvRefused(E2BIG))
    ensures !(|q[k].text| > a.msgsz && !a.noerror) ==>
              RightReply(q, RemoveAt(q, k), a, nowait, Received(q[k].mtype, q[k].text[..Min(a.msgsz, |q[k].text|)]))
  {
    assert !NoneWanted(q, a.msgtyp, a.except);
  }

  lemma RemoveIs(q: seq<Msg>, k: nat)
    requires k < |q|
    ensures RemoveAt(q, k) == q[..k] + q[k + 1..]
  {
  }

  lemma MessagesOk(st: State)
    requires Inv(st)
    ensures AllAcceptable(st.messages)
  {
  }

  /** The receivers passed so far go before what the rest of the list yields. */
  function After(asleep: seq<Receiver>, woken: seq<(Receiver, Outcome)>, h: HandOver): HandOver {
    HandOver(asleep + h.asleep, woken + h.woken, h.taken)
  }

  lemma AfterFirst(asleep: seq<Receiver>, woken: seq<(Receiver, Outcome)>, rs: seq<Receiver>, m: Msg)
    requires rs != []
    ensures var r := rs[0];
            After(asleep, woken, Pipelined(rs, m)) ==
            if !TestMsg(m, r.mtype, r.mode) then After(asleep + [r], woken, Pipelined(rs[1..], m))
            else if r.maxsize < |m.text| then After(asleep, woken + [(r, TooBig)], Pipelined(rs[1..], m))
            else HandOver(asleep + rs[1..], woken + [(r, Got(m))], true)
  {
  }

  class MsgQueue {
    var messages: seq<Msg>
    var receivers: seq<Receiver>
    var cbytes: nat
    var qnum: nat
    var qbytes: nat
    ghost var sent: seq<Msg>
    ghost var delivered: seq<Msg>

    ghost function Value(): State
      reads this
    {
      State(messages, receivers, cbytes, qnum, qbytes, sent, delivered)
    }

    constructor (limit: nat)
      ensures Value() == Fresh(limit)
    {
      messages, receivers, cbytes, qnum, qbytes := [], [], 0, 0, limit;
      sent, delivered := [], [];
    }

    /** `pipelined_send`: offer a message to the sleeping receivers, taking those it matches off the list. */
    method PipelinedSend(m: Msg) returns (taken: bool, woken: seq<(Receiver, Outcome)>)
      modifies this`receivers
      ensures HandOver(receivers, woken, taken) == Pipelined(old(receivers), m)
    {
      hide Pipelined, After;
      woken := [];
      var i := 0;
      ghost var all := Pipelined(receivers, m);
      AfterNone(all);
      while i < |receivers|
        invariant 0 <= i <= |receivers|
        invariant After(receivers[..i], woken, Pipelined(receivers[i..], m)) == all
        decreases |receivers| - i
      {
        var r := receivers[i];
        AfterFirst(receivers[..i], woken, receivers[i..], m);
        assert receivers[i..][1..] == receivers[i + 1..] && receivers[..i] + [r] == receivers[..i + 1];
        if TestMsg(m, r.mtype, r.mode) {
          ghost var kept, rest := receivers[..i], receivers[i + 1..];
          receivers := receivers[..i] + receivers[i + 1..];
          assert receivers[..i] == kept && receivers[i..] == rest;
          if r.maxsize < |m.text| {
            woken := woken + [(r, TooBig)];
          } else {
            woken := woken + [(r, Got(m))];
            return true, woken;
          }
        } else {
          i := i + 1;
        }
      }
      assert receivers[i..] == [] && receivers[..i] == receivers;
      AfterEmpty(receivers, woken, m);
      taken := false;
    }

    /** `sys_msgsnd`, until it returns or goes to sleep for want of room. */
    method MsgSnd(mtype: int, text: seq<nat>, nowait: bool, msgCtlmax: nat) returns (reply: SendReply)
      requires Inv(Value()) && msgCtlmax <= INT_MAX
      modifies this
      ensures var m := Msg(mtype, text);
              if |text| > msgCtlmax || mtype < 1 then reply == SendRefused(EINVAL)
              else if Fits(old(Value()), m) then reply == Accepted && Value() == Step(old(Value()), Send(m))
              else reply == if nowait then SendRefused(EAGAIN) else SenderSleeps
      ensures reply == Accepted <==>
                && 1 <= mtype && |text| <= msgCtlmax
                && Bytes(old(messages) + [Msg(mtype, text)]) <= old(qbytes) && |old(messages)| + 1 <= old(qbytes)
      ensures reply != Accepted ==> Value() == old(Value())
      ensures Inv(Value())
    {
      RoomFor(Value(), Msg(mtype, text));
      hide Inv, Pipelined;
      if |text| > msgCtlmax || mtype < 1 { return SendRefused(EINVAL); }
      var m := Msg(mtype, text);
      if |text| + cbytes > qbytes || 1 + qnum > qbytes {
        return if nowait then SendRefused(EAGAIN) else SenderSleeps;
      }
      StepInv(Value(), Send(m));
      var taken, _ := PipelinedSend(m);
      sent := sent + [m];
      if taken {
        delivered := delivered + [m];
      } else {
        messages := messages + [m];
        cbytes, qnum := cbytes + |text|, qnum + 1;
      }
      return Accepted;
    }

    /** The search of `sys_msgrcv`. */
    method Search(mtype0: int, mode: Mode) returns (found: Option<nat>)
      ensures found == Find(messages, mtype0, mode)
    {
      found := None;
      var i, mtype := 0, mtype0;
      while i < |messages|
        invariant 0 <= i <= |messages|
        invariant Scan(messages, mtype, mode, i, found) == Find(messages, mtype0, mode)
      {
        var m := messages[i];
        if TestMsg(m, mtype, mode) {
          found := Some(i);
          if mode == LessEqual && m.mtype != 1 {
            mtype := m.mtype - 1;
          } else {
            return;
          }
        }
        i := i + 1;
      }
    }

    /** `sys_msgrcv`, until it returns or goes to sleep. */
    method MsgRcv(task: nat, msgsz: nat, msgtyp: int, except: bool, noerror: bool, nowait: bool) returns (reply: RecvReply)
      requires Inv(Value())
      modifies this
      ensures Value() == Step(old(Value()), Recv(Asking(Ask(task, msgsz, msgtyp, except, noerror)), nowait))
      ensures RightReply(old(messages), messages, Ask(task, msgsz, msgtyp, except, noerror), nowait, reply)
      ensures reply == ReceiverSleeps ==> receivers == old(receivers) + [Asking(Ask(task, msgsz, msgtyp, except, noerror))]
      ensures Inv(Value())
    {
      hide Inv, Find, Chosen, NoneWanted, RightReply, RemoveAt;
      ghost var a := Ask(task, msgsz, msgtyp, except, noerror);
      assert AllAcceptable(messages) by { MessagesOk(Value()); }
      FindsWanted(messages, msgtyp, except);
      var (mode, mtype) := ConvertMode(msgtyp, except);
      var r := Receiver(task, mtype, mode, if noerror then INT_MAX else msgsz);
      StepInv(Value(), Recv(r, nowait));
      RecvFacts(Value(), r);
      var found := Search(mtype, mode);
      if found.None? {
        ReplyNone(messages, a, nowait);
        if nowait { return RecvRefused(ENOMSG); }
        receivers := receivers + [r];
        return ReceiverSleeps;
      }
      var m := messages[found.value];
      ReplyOne(messages, a, nowait, found.value);
      if msgsz < |m.text| && !noerror { return RecvRefused(E2BIG); }
      RemoveIs(messages, found.value);
      messages := messages[..found.value] + messages[found.value + 1..];
      qnum, cbytes := qnum - 1, cbytes - |m.text|;
      delivered := delivered + [m];
      assert m.text[..|m.text|] == m.text;
      return Received(m.mtype, if msgsz > |m.text| then m.text else m.text[..msgsz]);
    }
  }

  lemma AfterNone(h: HandOver)
    ensures After([], [], h) == h
  {
  }

  lemma AfterEmpty(asleep: seq<Receiver>, woken: seq<(Receiver, Outcome)>, m: Msg)
    ensures After(asleep, woken, Pipelined([], m)) == HandOver(asleep, woken, false)
  {
  }

  lemma RoomFor(st: State, m: Msg)
    requires Inv(st)
    ensures Fits(st, m) <==> Bytes(st.messages + [m]) <= st.qbytes && |st.messages| + 1 <= st.qbytes
  {
    BytesConcat(st.messages, [m]);
  }

  /** What the code relies on when it takes a message. */
  lemma RecvFacts(st: State, r: Receiver)
    requires Inv(st)
    ensures match Find(st.messages, r.mtype, r.mode)
            case None => true
            case Some(k) => k < |st.messages| && |st.messages[k].text| <= INT_MAX && st.qnum > 0 && st.cbytes >= |st.messages[k].text|
  {
    FindCorrect(st.messages, r.mtype, r.mode);
    var f := Find(st.messages, r.mtype, r.mode);
    if f.Some? {
      BytesRemove(st.messages, f.value);
      assert Acceptable(st.messages[f.value]);
    }
  }
}
