/**
 What every call on the message queue (my_pxmsg_mmap) is answered, told from the messages that
 have arrived, the registration that stands and the call's own arguments.
 */
module QueueReplies {
  import opened Common
  import opened QueueProtocol
  import QueueSpec

  type Message = QueueSpec.Message
  type Registration = QueueSpec.Registration

  /** How a section ends: its outcome, the message received, whether mqh_wait was signalled, and
      the registration whose process was sent its signal. */
  datatype Reply = Reply(outcome: QueueSpec.Outcome, message: Option<Message>, signal: bool, notice: Option<Registration>)

  /** A section that does nothing but return outcome, or wait. */
  function Only(outcome: QueueSpec.Outcome): Reply {
    Reply(outcome, None, false, None)
  }

  function SendReply(e: QueueSpec.Sending): Reply {
    Reply(e.outcome, None, e.signal, e.notice)
  }

  function ReceiveReply(e: QueueSpec.Receiving): Reply {
    Reply(e.outcome, e.message, e.signal, None)
  }

  /** What the sections do. */
  function ReplyOf(s: System, a: Action): Reply
    requires Ready(s, a)
  {
    match a
    case MqSend(i, m, nonblock, w) => SendReply(QueueSpec.Send(s.q, nonblock, m))
    case ResumeSend(i, w) => SendReply(QueueSpec.ResumeSend(s.q, s.mail[i]))
    case MqReceive(i, nonblock, maxlen, w) => ReceiveReply(QueueSpec.Receive(s.q, nonblock, maxlen))
    case ResumeReceive(i, w) => ReceiveReply(QueueSpec.ResumeReceive(s.q))
    case MqNotify(pid, request, alive) => Only(QueueSpec.Notify(s.q, pid, request, alive).1)
    case Spurious(i) => Only(QueueSpec.Blocks)
  }

  // ---------------------------------------------------------------- the reference

  function Nobody(s: System): bool {
    Total(InReceive, s.threads) == 0
  }

  /** What the next receive gets: the oldest message of the highest priority present. */
  function Served(s: System): Reply
    requires s.arrived != []
  {
    Reply(QueueSpec.Done, Some(s.arrived[QueueSpec.Oldest(s.arrived)]), |s.arrived| == s.q.maxmsg, None)
  }

  /** What the caller of step a must be told. */
  function Expected(s: System, a: Action): Reply
    requires Ready(s, a)
  {
    match a
    case MqSend(i, m, nonblock, w) =>
      if |m.body| > s.q.msgsize then Only(QueueSpec.Failed(QueueSpec.EMSGSIZE))
      else if |s.arrived| == s.q.maxmsg then Only(if nonblock then QueueSpec.Failed(QueueSpec.EAGAIN) else QueueSpec.Blocks)
      else Reply(QueueSpec.Done, None, s.arrived == [],
                 if s.arrived == [] && Nobody(s) && s.q.registered.Some? && s.q.registered.value.signals
                 then s.q.registered else None)
    case ResumeSend(i, w) =>
      if |s.arrived| == s.q.maxmsg then Only(QueueSpec.Blocks) else Reply(QueueSpec.Done, None, s.arrived == [], None)
    case MqReceive(i, nonblock, maxlen, w) =>
      if maxlen < s.q.msgsize then Only(QueueSpec.Failed(QueueSpec.EMSGSIZE))
      else if s.arrived == [] then Only(if nonblock then QueueSpec.Failed(QueueSpec.EAGAIN) else QueueSpec.Blocks)
      else Served(s)
    case ResumeReceive(i, w) =>
      if s.arrived == [] then Only(QueueSpec.Blocks) else Served(s)
    case MqNotify(pid, request, alive) =>
      Only(if request.Some? && s.q.registered.Some? && alive then QueueSpec.Failed(QueueSpec.EBUSY) else QueueSpec.Done)
    case Spurious(i) => Only(QueueSpec.Blocks)
  }

  lemma {:induction false} ListIsArrivals(s: System)
    requires Inv(s)
    ensures |s.arrived| == |s.q.msgs| <= s.q.maxmsg && s.q.maxmsg >= 1
    ensures s.q.msgs != [] ==> s.q.msgs[0] == s.arrived[QueueSpec.Oldest(s.arrived)]
  {
    QueueSpec.StableSortSorts(s.arrived);
    if s.q.msgs != [] {
      ServesOldest(s);
    }
  }

  /** Every section of every thread answers what the reference says. */
  lemma {:induction false} EveryReply(s: System, a: Action)
    requires Inv(s) && Ready(s, a)
    ensures ReplyOf(s, a) == Expected(s, a)
  {
    ListIsArrivals(s);
  }

  function NoticeOf(e: Reply): seq<Registration> {
    if e.notice.Some? then [e.notice.value] else []
  }

  /** The processes signalled are recorded in order. */
  lemma {:induction false} NoticesAfter(s: System, a: Action)
    requires Inv(s) && Ready(s, a)
    ensures Step(s, a).notices == s.notices + NoticeOf(Expected(s, a))
  {
    EveryReply(s, a);
    if !a.MqSend? {
      OthersNotifyNobody(s, a);
    }
  }

  // ---------------------------------------------------------------- along a run

  /** The system after the first k steps. */
  function StateAt(s: System, trace: seq<Action>, k: nat): System
    decreases |trace|
  {
    if k == 0 || trace == [] || !Ready(s, trace[0]) then s
    else StateAt(Step(s, trace[0]), trace[1..], k - 1)
  }

  lemma {:induction false} NextState(s: System, trace: seq<Action>, t: System, k: nat)
    requires Run(s, trace, t) && k < |trace|
    ensures Ready(StateAt(s, trace, k), trace[k])
    ensures StateAt(s, trace, k + 1) == Step(StateAt(s, trace, k), trace[k])
    decreases |trace|
  {
    if k == 0 {
      assert StateAt(s, trace, 1) == StateAt(Step(s, trace[0]), trace[1..], 0);
    } else {
      NextState(Step(s, trace[0]), trace[1..], t, k - 1);
    }
  }

  lemma {:induction false} LastState(s: System, trace: seq<Action>, t: System)
    requires Run(s, trace, t)
    ensures StateAt(s, trace, |trace|) == t
    decreases |trace|
  {
    if trace != [] {
      LastState(Step(s, trace[0]), trace[1..], t);
    }
  }

  lemma {:induction false} InvAt(s: System, trace: seq<Action>, t: System, k: nat)
    requires Inv(s) && Run(s, trace, t) && k <= |trace|
    ensures Inv(StateAt(s, trace, k))
    ensures StateAt(s, trace, k).q.maxmsg == s.q.maxmsg && StateAt(s, trace, k).q.msgsize == s.q.msgsize
    decreases |trace|
  {
    if k > 0 {
      StepKeepsInv(s, trace[0]);
      StepQueue(s, trace[0]);
      InvAt(Step(s, trace[0]), trace[1..], t, k - 1);
    }
  }

  // ---------------------------------------------------------------- whose registration stands

  /** Step a makes a registration: nobody was registered or the one who was has died. */
  predicate Registers(u: System, a: Action) {
    a.MqNotify? && a.request.Some? && (u.q.registered.None? || !a.alive)
  }

  /** Step a ends the registration r: its own process withdraws it, or an arrival uses it up. */
  ghost predicate Ends(u: System, a: Action, r: Registration) {
    (a.MqNotify? && a.request.None? && a.pid == r.pid) || UsesUp(u, a)
  }

  /** What one step does to the registration. */
  lemma {:induction false} RegisteredAfter(u: System, a: Action)
    requires Inv(u) && Ready(u, a)
    ensures Step(u, a).q.registered ==
            if Registers(u, a) then Some(QueueSpec.Registration(a.pid, a.request.value))
            else if u.q.registered.Some? && Ends(u, a, u.q.registered.value) then None
            else u.q.registered
  {
    ListIsArrivals(u);
    StepQueue(u, a);
  }

  /** Of the first n steps the k-th registered r, and no later one registered anybody or ended r. */
  ghost predicate Stands(s: System, trace: seq<Action>, n: nat, k: int, r: Registration) {
    && 0 <= k < n <= |trace|
    && Registers(StateAt(s, trace, k), trace[k])
    && r == QueueSpec.Registration(trace[k].pid, trace[k].request.value)
    && forall j :: k < j < n ==> Unshaken(s, trace, j, r)
  }

  ghost predicate Unshaken(s: System, trace: seq<Action>, j: int, r: Registration) {
    && 0 <= j < |trace|
    && !Registers(StateAt(s, trace, j), trace[j])
    && !Ends(StateAt(s, trace, j), trace[j], r)
  }

  /** After n steps of any run r is registered exactly when it is the last accepted registration,
      its process has not withdrawn it and no arrival has used it up. */
  lemma {:induction false} StandsIff(s: System, trace: seq<Action>, t: System, n: nat, r: Registration)
    requires Inv(s) && s.q.registered.None? && Run(s, trace, t) && n <= |trace|
    ensures StateAt(s, trace, n).q.registered == Some(r) <==> SomeStands(s, trace, n, r)
  {
    if n > 0 {
      var m := n - 1;
      StandsIff(s, trace, t, m, r);
      InvAt(s, trace, t, m);
      NextState(s, trace, t, m);
      RegisteredAfter(StateAt(s, trace, m), trace[m]);
      StandsNext(s, trace, m, n, r);
    }
  }

  ghost predicate SomeStands(s: System, trace: seq<Action>, n: nat, r: Registration) {
    exists k :: Stands(s, trace, n, k, r)
  }

  /** How standing after n steps depends on standing one step earlier. */
  lemma {:induction false} StandsNext(s: System, trace: seq<Action>, m: nat, n: nat, r: Registration)
    requires n == m + 1 <= |trace|
    ensures SomeStands(s, trace, n, r) <==>
            if Registers(StateAt(s, trace, m), trace[m]) then r == QueueSpec.Registration(trace[m].pid, trace[m].request.value)
            else SomeStands(s, trace, m, r) && !Ends(StateAt(s, trace, m), trace[m], r)
  {
    if k :| Stands(s, trace, n, k, r) {
      if k < m {
        assert Unshaken(s, trace, m, r);
        assert Stands(s, trace, m, k, r);
      }
    }
    if Registers(StateAt(s, trace, m), trace[m]) {
      if r == QueueSpec.Registration(trace[m].pid, trace[m].request.value) {
        assert Stands(s, trace, n, m, r);
      }
    } else if k :| Stands(s, trace, m, k, r) {
      if !Ends(StateAt(s, trace, m), trace[m], r) {
        assert Stands(s, trace, n, k, r);
      }
    }
  }

  // ---------------------------------------------------------------- main results

  /** In every run a receive fails with EMSGSIZE exactly if its buffer is too small, with EAGAIN
      exactly if it may not block and nothing is there, blocks exactly if it may, and otherwise
      gets the oldest message of the highest priority. */
  lemma {:induction false} EveryReceiveIsAnswered(s: System, n: nat, maxmsg: int, msgsize: int, trace: seq<Action>, t: System, a: Action)
    requires Init(s, n, maxmsg, msgsize) && Run(s, trace, t) && Ready(t, a) && a.MqReceive?
    ensures var o := ReplyOf(t, a).outcome;
            && (o == QueueSpec.Failed(QueueSpec.EMSGSIZE) <==> a.maxlen < msgsize)
            && (o == QueueSpec.Failed(QueueSpec.EAGAIN) <==> a.maxlen >= msgsize && t.arrived == [] && a.nonblock)
            && (o == QueueSpec.Blocks <==> a.maxlen >= msgsize && t.arrived == [] && !a.nonblock)
            && (o == QueueSpec.Done <==> a.maxlen >= msgsize && t.arrived != [])
    ensures ReplyOf(t, a).message.Some? <==> a.maxlen >= msgsize && t.arrived != []
  {
    AnsweredAt(s, n, maxmsg, msgsize, trace, t, a);
  }

  /** The same for a send and the room in the queue; a message is accepted exactly if there is
      room for it. */
  lemma {:induction false} EverySendIsAnswered(s: System, n: nat, maxmsg: int, msgsize: int, trace: seq<Action>, t: System, a: Action)
    requires Init(s, n, maxmsg, msgsize) && Run(s, trace, t) && Ready(t, a) && a.MqSend?
    ensures var o := ReplyOf(t, a).outcome;
            && (o == QueueSpec.Failed(QueueSpec.EMSGSIZE) <==> |a.m.body| > msgsize)
            && (o == QueueSpec.Failed(QueueSpec.EAGAIN) <==> |a.m.body| <= msgsize && |t.arrived| == maxmsg && a.nonblock)
            && (o == QueueSpec.Blocks <==> |a.m.body| <= msgsize && |t.arrived| == maxmsg && !a.nonblock)
            && (o == QueueSpec.Done <==> |a.m.body| <= msgsize && |t.arrived| < maxmsg)
    ensures Step(t, a).arrived == if ReplyOf(t, a).outcome.Done? then t.arrived + [a.m] else t.arrived
    ensures |t.arrived| <= maxmsg
  {
    AnsweredAt(s, n, maxmsg, msgsize, trace, t, a);
  }

  lemma {:induction false} AnsweredAt(s: System, n: nat, maxmsg: int, msgsize: int, trace: seq<Action>, t: System, a: Action)
    requires Init(s, n, maxmsg, msgsize) && Run(s, trace, t) && Ready(t, a)
    ensures ReplyOf(t, a) == Expected(t, a)
    ensures t.q.maxmsg == maxmsg && t.q.msgsize == msgsize && |t.arrived| <= maxmsg
  {
    InitInv(s, n, maxmsg, msgsize);
    InvAt(s, trace, t, |trace|);
    LastState(s, trace, t);
    ListIsArrivals(t);
    EveryReply(t, a);
  }

  /** While the process of the registration that stands lives, no call of mq_notify by another
      process changes it: a registration is refused with EBUSY and a withdrawal does nothing. */
  lemma {:induction false} OthersCannotEvict(s: System, n: nat, maxmsg: int, msgsize: int, trace: seq<Action>, t: System, a: Action, r: Registration)
    requires Init(s, n, maxmsg, msgsize) && Run(s, trace, t) && Ready(t, a)
    requires SomeStands(s, trace, |trace|, r) && a.MqNotify? && a.alive
    ensures a.request.Some? ==> ReplyOf(t, a).outcome == QueueSpec.Failed(QueueSpec.EBUSY)
    ensures a.request.Some? || a.pid != r.pid ==> Step(t, a).q.registered == Some(r)
    ensures a.request.None? && a.pid == r.pid ==> Step(t, a).q.registered == None
  {
    AnsweredAt(s, n, maxmsg, msgsize, trace, t, a);
    LastState(s, trace, t);
    InitInv(s, n, maxmsg, msgsize);
    InvAt(s, trace, t, |trace|);
    StandsIff(s, trace, t, |trace|, r);
    RegisteredAfter(t, a);
  }

  /** In every run a step signals r exactly when it brings a message into the empty queue with no
      receiver waiting and r, which asked for a signal, is the registration that stands. */
  lemma {:induction false} EveryNoticeStands(s: System, n: nat, maxmsg: int, msgsize: int, trace: seq<Action>, t: System, a: Action, r: Registration)
    requires Init(s, n, maxmsg, msgsize) && Run(s, trace, t) && Ready(t, a)
    ensures ReplyOf(t, a).notice == Some(r) <==> UsesUp(t, a) && r.signals && SomeStands(s, trace, |trace|, r)
    ensures Step(t, a).notices == t.notices + NoticeOf(ReplyOf(t, a))
  {
    AnsweredAt(s, n, maxmsg, msgsize, trace, t, a);
    LastState(s, trace, t);
    InitInv(s, n, maxmsg, msgsize);
    StandsIff(s, trace, t, |trace|, r);
    InvAt(s, trace, t, |trace|);
    NoticesAfter(t, a);
  }

  // ---------------------------------------------------------------- whose message a resumed sender sends

  /** The message of the last call of mq_send by thread i, told from the calls made; m if there
      was none. */
  function LastSent(trace: seq<Action>, i: nat, m: Option<Message>): Option<Message>
    decreases |trace|
  {
    if trace == [] then m
    else LastSent(trace[1..], i, if trace[0].MqSend? && trace[0].i == i then Some(trace[0].m) else m)
  }

  /** A blocked sender's message is that of the section that blocked, or the one it had. */
  lemma {:induction false} SendMail(s: System, j: nat, m: Message, e: QueueSpec.Sending, w: nat, i: nat)
    requires j < |s.threads| == |s.mail| && i < |s.threads|
    ensures var t := AfterSend(s, j, m, e, w);
            && |t.mail| == |t.threads| == |s.threads|
            && (InSend(t.threads[i]) ==> (i == j && t.mail[i] == m) || (InSend(s.threads[i]) && t.mail[i] == s.mail[i]))
  {
  }

  lemma {:induction false} ReceiveMail(s: System, j: nat, e: QueueSpec.Receiving, w: nat, i: nat)
    requires j < |s.threads| == |s.mail| && i < |s.threads|
    ensures var t := AfterReceive(s, j, e, w);
            && |t.mail| == |t.threads| == |s.threads| && t.mail == s.mail
            && (InSend(t.threads[i]) ==> InSend(s.threads[i]))
  {
  }

  lemma {:induction false} StepKeepsMail(s: System, a: Action, i: nat, m: Option<Message>)
    requires Ready(s, a) && i < |s.threads| && (InSend(s.threads[i]) ==> m == Some(s.mail[i]))
    ensures var m' := if a.MqSend? && a.i == i then Some(a.m) else m;
            && |Step(s, a).mail| == |Step(s, a).threads| == |s.threads|
            && (InSend(Step(s, a).threads[i]) ==> m' == Some(Step(s, a).mail[i]))
  {
    match a
    case MqSend(j, m', nonblock, w) => SendMail(s, j, m', QueueSpec.Send(s.q, nonblock, m'), w, i);
    case ResumeSend(j, w) => SendMail(s, j, s.mail[j], QueueSpec.ResumeSend(s.q, s.mail[j]), w, i);
    case MqReceive(j, nonblock, maxlen, w) => ReceiveMail(s, j, QueueSpec.Receive(s.q, nonblock, maxlen), w, i);
    case ResumeReceive(j, w) => ReceiveMail(s, j, QueueSpec.ResumeReceive(s.q), w, i);
    case MqNotify(pid, request, alive) =>
    case Spurious(j) =>
  }

  lemma {:induction false} SameThreads(s: System, trace: seq<Action>, t: System)
    requires Run(s, trace, t)
    ensures |t.threads| == |s.threads|
    decreases |trace|
  {
    if trace != [] {
      SameThreads(Step(s, trace[0]), trace[1..], t);
    }
  }

  lemma {:induction false} RunKeepsMail(s: System, trace: seq<Action>, t: System, i: nat, m: Option<Message>)
    requires Run(s, trace, t) && i < |s.threads| == |s.mail| && (InSend(s.threads[i]) ==> m == Some(s.mail[i]))
    ensures i < |t.threads| == |t.mail| && (InSend(t.threads[i]) ==> LastSent(trace, i, m) == Some(t.mail[i]))
    decreases |trace|
  {
    if trace != [] {
      StepKeepsMail(s, trace[0], i, m);
      RunKeepsMail(Step(s, trace[0]), trace[1..], t, i, if trace[0].MqSend? && trace[0].i == i then Some(trace[0].m) else m);
    }
  }

  /** In every run a sender that had blocked puts the message of its own call on the queue, and
      does so exactly when it finds room. */
  lemma {:induction false} ResumedSenderSendsItsOwn(s: System, n: nat, maxmsg: int, msgsize: int, trace: seq<Action>, t: System, i: nat, w: nat)
    requires Init(s, n, maxmsg, msgsize) && Run(s, trace, t) && Ready(t, ResumeSend(i, w))
    ensures LastSent(trace, i, None).Some?
    ensures Step(t, ResumeSend(i, w)).arrived ==
            if |t.arrived| < maxmsg then t.arrived + [LastSent(trace, i, None).value] else t.arrived
    ensures ReplyOf(t, ResumeSend(i, w)).outcome == if |t.arrived| < maxmsg then QueueSpec.Done else QueueSpec.Blocks
  {
    SameThreads(s, trace, t);
    RunKeepsMail(s, trace, t, i, None);
    AnsweredAt(s, n, maxmsg, msgsize, trace, t, ResumeSend(i, w));
  }
}
