/**
 System V message queues: which message a receiver gets, the hand-over of a message to a sleeping
 receiver past the queue, and the order in which messages arrive.
 */
module MessageQueue {
  import opened Basics

  const INT_MAX := 0x7fff_ffff
  const LONG_MIN := -0x8000_0000

  /** `m_ts` is the length of the text. */
  datatype Msg = Msg(mtype: int, text: seq<nat>)

  datatype Mode = Any | Equal | NotEqual | LessEqual

  /** A receiver: what it asks for, and how long a text it takes (`INT_MAX` with MSG_NOERROR). */
  datatype Receiver = Receiver(task: nat, mtype: int, mode: Mode, maxsize: int)

  /** What a receiver is given: a message, or -E2BIG. */
  datatype Outcome = Got(msg: Msg) | TooBig

  predicate Acceptable(m: Msg) { m.mtype >= 1 && |m.text| <= INT_MAX }

  /** `-x` computed in a 32-bit `long`. */
  function Negate(x: int): int { if x == LONG_MIN then LONG_MIN else -x }

  /** `convert_mode`: the mode and the type to compare with. */
  function ConvertMode(msgtyp: int, except: bool): (Mode, int) {
    if msgtyp == 0 then (Any, 0)
    else if msgtyp < 0 then (LessEqual, Negate(msgtyp))
    else if except then (NotEqual, msgtyp)
    else (Equal, msgtyp)
  }

  predicate TestMsg(m: Msg, mtype: int, mode: Mode) {
    match mode
    case Any => true
    case LessEqual => m.mtype <= mtype
    case Equal => m.mtype == mtype
    case NotEqual => m.mtype != mtype
  }

  // ---- the scan of sys_msgrcv

  /**
   The loop over the queue from position `i` on: `found` is the candidate so far; in mode `LessEqual` the
   type looked for is lowered each time a candidate is found, and a message of type 1 ends the search.
   */
  function Scan(msgs: seq<Msg>, mtype: int, mode: Mode, i: nat, found: Option<nat>): Option<nat>
    requires i <= |msgs|
    decreases |msgs| - i
  {
    if i == |msgs| then found
    else if !TestMsg(msgs[i], mtype, mode) then Scan(msgs, mtype, mode, i + 1, found)
    else if mode == LessEqual && msgs[i].mtype != 1 then Scan(msgs, msgs[i].mtype - 1, mode, i + 1, Some(i))
    else Some(i)
  }

  function Find(msgs: seq<Msg>, mtype: int, mode: Mode): Option<nat> { Scan(msgs, mtype, mode, 0, None) }

  predicate AllAcceptable(msgs: seq<Msg>) { forall i :: 0 <= i < |msgs| ==> Acceptable(msgs[i]) }

  /** `k` is the message a receiver is entitled to: a match; the earliest, in mode `LessEqual` of the least type. */
  predicate Entitled(msgs: seq<Msg>, mtype: int, mode: Mode, k: nat) {
    && k < |msgs| && TestMsg(msgs[k], mtype, mode)
    && forall i :: 0 <= i < |msgs| && TestMsg(msgs[i], mtype, mode) ==>
         if mode == LessEqual then msgs[k].mtype < msgs[i].mtype || (msgs[k].mtype == msgs[i].mtype && k <= i)
         else k <= i
  }

  predicate NoMatch(msgs: seq<Msg>, mtype: int, mode: Mode) {
    forall i :: 0 <= i < |msgs| ==> !TestMsg(msgs[i], mtype, mode)
  }

  /** In the middle of the scan: the candidate is the right one for what has been seen. */
  predicate ScanInv(msgs: seq<Msg>, mtype0: int, mtype: int, mode: Mode, i: nat, found: Option<nat>)
    requires i <= |msgs|
  {
    match found
    case None => mtype == mtype0 && NoMatch(msgs[..i], mtype0, mode)
    case Some(k) =>
      && mode == LessEqual && Entitled(msgs[..i], mtype0, mode, k)
      && msgs[k].mtype != 1 && mtype == msgs[k].mtype - 1
  }

  lemma {:induction false} ScanCorrect(
      msgs: seq<Msg>, mtype0: int, mtype: int, mode: Mode, i: nat, found: Option<nat>)
    requires i <= |msgs| && AllAcceptable(msgs) && ScanInv(msgs, mtype0, mtype, mode, i, found)
    ensures match Scan(msgs, mtype, mode, i, found)
            case Some(k) => Entitled(msgs, mtype0, mode, k)
            case None => NoMatch(msgs, mtype0, mode)
    decreases |msgs| - i
  {
    if i == |msgs| {
      assert msgs[..i] == msgs;
    } else {
      var s := msgs[..i + 1];
      assert s[..i] == msgs[..i] && s[i] == msgs[i];
      assert forall j :: 0 <= j < i ==> s[j] == msgs[..i][j];
      if !TestMsg(msgs[i], mtype, mode) {
        ScanCorrect(msgs, mtype0, mtype, mode, i + 1, found);
      } else if mode == LessEqual && msgs[i].mtype != 1 {
        ScanCorrect(msgs, mtype0, msgs[i].mtype - 1, mode, i + 1, Some(i));
      } else {
        forall j | 0 <= j < |msgs| && TestMsg(msgs[j], mtype0, mode)
          ensures if mode == LessEqual then msgs[i].mtype < msgs[j].mtype || (msgs[i].mtype == msgs[j].mtype && i <= j)
                  else i <= j
        {
          assert Acceptable(msgs[j]);
          assert j < i ==> msgs[j] == msgs[..i][j];
        }
      }
    }
  }

  /** The single scan finds the message a receiver is entitled to, and nothing only if nothing matches. */
  lemma FindCorrect(msgs: seq<Msg>, mtype: int, mode: Mode)
    requires AllAcceptable(msgs)
    ensures match Find(msgs, mtype, mode)
            case Some(k) => Entitled(msgs, mtype, mode, k)
            case None => NoMatch(msgs, mtype, mode)
  {
    ScanCorrect(msgs, mtype, mtype, mode, 0, None);
  }

  /** What `msgtyp` asks for, in mathematical integers. */
  predicate Wanted(m: Msg, msgtyp: int, except: bool) {
    if msgtyp == 0 then true
    else if msgtyp < 0 then m.mtype <= -msgtyp
    else if except then m.mtype != msgtyp
    else m.mtype == msgtyp
  }

  /** `k` is the wanted message that comes first; for a negative `msgtyp`, the first of the least type. */
  predicate Chosen(msgs: seq<Msg>, msgtyp: int, except: bool, k: nat) {
    && k < |msgs| && Wanted(msgs[k], msgtyp, except)
    && forall i :: 0 <= i < |msgs| && Wanted(msgs[i], msgtyp, except) ==>
         if msgtyp < 0 then msgs[k].mtype < msgs[i].mtype || (msgs[k].mtype == msgs[i].mtype && k <= i) else k <= i
  }

  predicate NoneWanted(msgs: seq<Msg>, msgtyp: int, except: bool) {
    forall i :: 0 <= i < |msgs| ==> !Wanted(msgs[i], msgtyp, except)
  }

  /** The test of a message means what `msgtyp` says, except for the least `long`, which has no absolute value. */
  lemma TestIsWanted(m: Msg, msgtyp: int, except: bool)
    requires Acceptable(m)
    ensures var (mode, mtype) := ConvertMode(msgtyp, except);
            TestMsg(m, mtype, mode) <==> msgtyp != LONG_MIN && Wanted(m, msgtyp, except)
  {
  }

  /**
   `msgrcv` takes the message that `msgtyp` asks for, and finds none exactly if none is wanted; for the least `long` every
   queue looks empty.
   */
  lemma FindsWanted(msgs: seq<Msg>, msgtyp: int, except: bool)
    requires AllAcceptable(msgs)
    ensures match Find(msgs, ConvertMode(msgtyp, except).1, ConvertMode(msgtyp, except).0)
            case Some(k) => msgtyp != LONG_MIN && Chosen(msgs, msgtyp, except, k)
            case None => msgtyp == LONG_MIN || NoneWanted(msgs, msgtyp, except)
  {
    var (mode, mtype) := ConvertMode(msgtyp, except);
    FindCorrect(msgs, mtype, mode);
    forall i | 0 <= i < |msgs|
      ensures TestMsg(msgs[i], mtype, mode) <==> msgtyp != LONG_MIN && Wanted(msgs[i], msgtyp, except)
    {
      assert Acceptable(msgs[i]);
      TestIsWanted(msgs[i], msgtyp, except);
    }
  }

  // ---- pipelined_send

  /** The receivers still asleep, those woken with what they got, and whether the message is gone. */
  datatype HandOver = HandOver(asleep: seq<Receiver>, woken: seq<(Receiver, Outcome)>, taken: bool)

  function Pipelined(rs: seq<Receiver>, m: Msg): HandOver {
    if rs == [] then HandOver([], [], false)
    else
      var r := rs[0];
      if !TestMsg(m, r.mtype, r.mode) then
        var h := Pipelined(rs[1..], m);
        h.(asleep := [r] + h.asleep)
      else if r.maxsize < |m.text| then
        var h := Pipelined(rs[1..], m);
        h.(woken := [(r, TooBig)] + h.woken)
      else HandOver(rs[1..], [(r, Got(m))], true)
  }

  /** A receiver searches the queue: what it gets and what is left, if it finds something. */
  datatype Reception = Nothing | Takes(k: nat) | Refuses

  function Receive(msgs: seq<Msg>, r: Receiver): Reception {
    match Find(msgs, r.mtype, r.mode)
    case None => Nothing
    case Some(k) => if k < |msgs| && r.maxsize < |msgs[k].text| then Refuses else Takes(k)
  }

  /** The slow path: every sleeping receiver, in order, searches the queue for itself. */
  function SearchAll(rs: seq<Receiver>, msgs: seq<Msg>): (HandOver, seq<Msg>)
    requires AllAcceptable(msgs)
    decreases |rs|
  {
    if rs == [] then (HandOver([], [], false), msgs)
    else
      match Receive(msgs, rs[0])
      case Nothing =>
        var (h, left) := SearchAll(rs[1..], msgs);
        (h.(asleep := [rs[0]] + h.asleep), left)
      case Refuses =>
        var (h, left) := SearchAll(rs[1..], msgs);
        (h.(woken := [(rs[0], TooBig)] + h.woken), left)
      case Takes(k) =>
        FindCorrect(msgs, rs[0].mtype, rs[0].mode);
        var (h, left) := SearchAll(rs[1..], RemoveAt(msgs, k));
        (HandOver(h.asleep, [(rs[0], Got(msgs[k]))] + h.woken, true), left)
  }

  /** No sleeping receiver matches a queued message. */
  predicate Quiet(rs: seq<Receiver>, msgs: seq<Msg>) {
    forall r :: r in rs ==> NoMatch(msgs, r.mtype, r.mode)
  }

  lemma OnlyLast(msgs: seq<Msg>, m: Msg, r: Receiver)
    requires AllAcceptable(msgs) && Acceptable(m) && NoMatch(msgs, r.mtype, r.mode)
    ensures AllAcceptable(msgs + [m])
    ensures Find(msgs + [m], r.mtype, r.mode) == if TestMsg(m, r.mtype, r.mode) then Some(|msgs|) else None
  {
    var s := msgs + [m];
    FindCorrect(s, r.mtype, r.mode);
    assert s[|msgs|] == m && forall i :: 0 <= i < |msgs| ==> s[i] == msgs[i];
  }

  lemma SomeMeansMatch(msgs: seq<Msg>, r: Receiver)
    requires AllAcceptable(msgs) && NoMatch(msgs, r.mtype, r.mode)
    ensures Find(msgs, r.mtype, r.mode) == None
  {
    FindCorrect(msgs, r.mtype, r.mode);
  }

  lemma {:induction false} QuietSearch(rs: seq<Receiver>, msgs: seq<Msg>)
    requires AllAcceptable(msgs) && Quiet(rs, msgs)
    ensures SearchAll(rs, msgs) == (HandOver(rs, [], false), msgs)
    decreases |rs|
  {
    hide Scan, Entitled;
    if rs != [] {
      assert rs[0] in rs;
      SomeMeansMatch(msgs, rs[0]);
      QuietSearch(rs[1..], msgs);
      assert [rs[0]] + rs[1..] == rs;
    }
  }

  /**
   Handing a message to a sleeping receiver past the queue gives everybody what they would have got if
   the message had been queued and each receiver had searched for itself.
   */
  lemma {:induction false} FastIsSlow(rs: seq<Receiver>, msgs: seq<Msg>, m: Msg)
    requires AllAcceptable(msgs) && Acceptable(m) && Quiet(rs, msgs)
    ensures AllAcceptable(msgs + [m])
    ensures var h := Pipelined(rs, m);
            SearchAll(rs, msgs + [m]) == (h, if h.taken then msgs else msgs + [m])
    decreases |rs|
  {
    assert AllAcceptable(msgs + [m]);
    if rs != [] {
      var r := rs[0];
      assert r in rs && forall r' :: r' in rs[1..] ==> r' in rs;
      OnlyLast(msgs, m, r);
      if !TestMsg(m, r.mtype, r.mode) || r.maxsize < |m.text| {
        FastIsSlow(rs[1..], msgs, m);
      } else {
        assert RemoveAt(msgs + [m], |msgs|) == msgs;
        QuietSearch(rs[1..], msgs);
        assert [(r, Got(m))] + [] == [(r, Got(m))];
      }
    }
  }

  // ---- the hand-over in terms of the calls

  /** The arguments of a call of `msgrcv` that has gone to sleep. */
  datatype Ask = Ask(task: nat, msgsz: nat, msgtyp: int, except: bool, noerror: bool)

  function Asking(a: Ask): Receiver {
    var (mode, mtype) := ConvertMode(a.msgtyp, a.except);
    Receiver(a.task, mtype, mode, if a.noerror then INT_MAX else a.msgsz)
  }

  function Receivers(asks: seq<Ask>): seq<Receiver> {
    if asks == [] then [] else [Asking(asks[0])] + Receivers(asks[1..])
  }

  predicate Wants(a: Ask, m: Msg) { a.msgtyp != LONG_MIN && Wanted(m, a.msgtyp, a.except) }

  predicate TakesLength(a: Ask, m: Msg) { a.noerror || |m.text| <= a.msgsz }

  /** Those of `asks` that do not want the message. */
  function Indifferent(asks: seq<Ask>, m: Msg): seq<Ask> {
    if asks == [] then [] else (if Wants(asks[0], m) then [] else [asks[0]]) + Indifferent(asks[1..], m)
  }

  /** What those of `asks` get that want the message and are too small for it. */
  function Refusals(asks: seq<Ask>, m: Msg): seq<(Receiver, Outcome)> {
    if asks == [] then [] else (if Wants(asks[0], m) then [(Asking(asks[0]), TooBig)] else []) + Refusals(asks[1..], m)
  }

  /** `n` is the first call that wants the message and takes its length, or their number if there is none. */
  predicate FirstTaker(asks: seq<Ask>, m: Msg, n: nat) {
    && n <= |asks| && (n < |asks| ==> Wants(asks[n], m) && TakesLength(asks[n], m))
    && forall i :: 0 <= i < n ==> !(Wants(asks[i], m) && TakesLength(asks[i], m))
  }

  /**
   A message goes to the first sleeping call that wants it and takes its length. Those before it that want it are woken
   with -E2BIG; everybody else sleeps on.
   */
  lemma {:induction false} HandOverMeans(asks: seq<Ask>, m: Msg) returns (n: nat)
    requires Acceptable(m)
    ensures FirstTaker(asks, m, n)
    ensures var h := Pipelined(Receivers(asks), m);
            && h.taken == (n < |asks|)
            && h.woken == Refusals(asks[..n], m) + (if n < |asks| then [(Asking(asks[n]), Got(m))] else [])
            && h.asleep == Receivers(Indifferent(asks[..n], m)) + (if n < |asks| then Receivers(asks[n + 1..]) else [])
  {
    if asks == [] {
      n := 0;
    } else {
      var a, rest := asks[0], asks[1..];
      FirstAsk(asks, m);
      if Wants(a, m) && TakesLength(a, m) {
        n := 0;
        assert asks[..0] == [] && Refusals([], m) == [] && Receivers(Indifferent([], m)) == [];
      } else {
        hide Wants, TakesLength, Pipelined, Receivers, Asking, Refusals, Indifferent;
        var k := HandOverMeans(rest, m);
        n := k + 1;
        TakeOne(asks, n);
        assert n < |asks| ==> rest[k] == asks[n] && rest[k + 1..] == asks[n + 1..];
        assert forall i :: 0 < i < n ==> asks[i] == rest[i - 1];
        HandOverStep(a, rest[..k], m, if n < |asks| then Receivers(asks[n + 1..]) else [],
                     if n < |asks| then [(Asking(asks[n]), Got(m))] else []);
      }
    }
  }

  lemma FirstAsk(asks: seq<Ask>, m: Msg)
    requires Acceptable(m) && asks != []
    ensures var a, h, h1 := asks[0], Pipelined(Receivers(asks), m), Pipelined(Receivers(asks[1..]), m);
            h == if !Wants(a, m) then h1.(asleep := [Asking(a)] + h1.asleep)
                 else if !TakesLength(a, m) then h1.(woken := [(Asking(a), TooBig)] + h1.woken)
                 else HandOver(Receivers(asks[1..]), [(Asking(a), Got(m))], true)
  {
    var rs := Receivers(asks);
    assert rs[0] == Asking(asks[0]) && rs[1..] == Receivers(asks[1..]);
    TestIsWanted(m, asks[0].msgtyp, asks[0].except);
  }

  lemma TakeOne(asks: seq<Ask>, n: nat)
    requires 0 < n <= |asks|
    ensures asks[..n] == [asks[0]] + asks[1..][..n - 1]
  {
  }

  /** One more call in front, which sleeps on or is refused. */
  lemma HandOverStep(a: Ask, asks: seq<Ask>, m: Msg, rs: seq<Receiver>, last: seq<(Receiver, Outcome)>)
    ensures Refusals([a] + asks, m) + last ==
            if Wants(a, m) then [(Asking(a), TooBig)] + (Refusals(asks, m) + last) else Refusals(asks, m) + last
    ensures Receivers(Indifferent([a] + asks, m)) + rs ==
            if Wants(a, m) then Receivers(Indifferent(asks, m)) + rs
            else [Asking(a)] + (Receivers(Indifferent(asks, m)) + rs)
  {
    assert ([a] + asks)[1..] == asks;
    var some := Indifferent(asks, m);
    assert ([a] + some)[1..] == some;
    assert [] + some == some && [] + Refusals(asks, m) == Refusals(asks, m);
  }
}
