/**
 The protocol played on the mapped region: whatever any number of threads do to one queue, the
 region goes through the states of the abstract priority queue and answers as it does.
 */
module QueueRuns {
  import opened Common
  import QueueSpec
  import QueueProtocol
  import QueueReplies
  import opened MappedQueue

  type Message = QueueSpec.Message
  type System = QueueProtocol.System
  type Action = QueueProtocol.Action
  type Reply = QueueReplies.Reply

  /** What the calls of a whole run must be answered, step by step. */
  function AllExpected(s: System, trace: seq<Action>): seq<Reply>
    decreases |trace|
  {
    if trace == [] || !QueueProtocol.Ready(s, trace[0]) then []
    else [QueueReplies.Expected(s, trace[0])] + AllExpected(QueueProtocol.Step(s, trace[0]), trace[1..])
  }

  /** The processes signalled, in order. */
  function NoticesIn(replies: seq<Reply>): seq<QueueSpec.Registration> {
    if replies == [] then [] else QueueReplies.NoticeOf(replies[0]) + NoticesIn(replies[1..])
  }

  /** There is one answer for every step, told from the state the run has come to. */
  lemma {:induction false} ExpectedAt(s: System, trace: seq<Action>, t: System, k: nat)
    requires QueueProtocol.Run(s, trace, t) && k < |trace|
    ensures |AllExpected(s, trace)| == |trace| && QueueProtocol.Ready(QueueReplies.StateAt(s, trace, k), trace[k])
    ensures AllExpected(s, trace)[k] == QueueReplies.Expected(QueueReplies.StateAt(s, trace, k), trace[k])
    decreases |trace|
  {
    var u := QueueProtocol.Step(s, trace[0]);
    if k > 0 {
      ExpectedAt(u, trace[1..], t, k - 1);
    } else if |trace| > 1 {
      ExpectedAt(u, trace[1..], t, 0);
    }
  }

  /** Whoever blocks in mq_send has passed the length test. */
  ghost predicate MailFits(s: System) {
    && |s.mail| == |s.threads|
    && forall i :: 0 <= i < |s.threads| && QueueProtocol.InSend(s.threads[i]) ==> |s.mail[i].body| <= s.q.msgsize
  }

  lemma {:induction false} SendKeepsMail(s: System, i: nat, m: Message, e: QueueSpec.Sending, w: nat)
    requires MailFits(s) && i < |s.threads| && e.queue.msgsize == s.q.msgsize
    requires e.outcome.Blocks? ==> |m.body| <= s.q.msgsize
    ensures MailFits(QueueProtocol.AfterSend(s, i, m, e, w))
  {
  }

  lemma {:induction false} ReceiveKeepsMail(s: System, i: nat, e: QueueSpec.Receiving, w: nat)
    requires MailFits(s) && i < |s.threads| && e.queue.msgsize == s.q.msgsize
    ensures MailFits(QueueProtocol.AfterReceive(s, i, e, w))
  {
  }

  lemma {:induction false} StepKeepsMail(s: System, a: Action)
    requires MailFits(s) && QueueProtocol.Ready(s, a)
    ensures MailFits(QueueProtocol.Step(s, a))
  {
    match a
    case MqSend(i, m, nonblock, w) => SendKeepsMail(s, i, m, QueueSpec.Send(s.q, nonblock, m), w);
    case ResumeSend(i, w) => SendKeepsMail(s, i, s.mail[i], QueueSpec.ResumeSend(s.q, s.mail[i]), w);
    case MqReceive(i, nonblock, maxlen, w) => ReceiveKeepsMail(s, i, QueueSpec.Receive(s.q, nonblock, maxlen), w);
    case ResumeReceive(i, w) => ReceiveKeepsMail(s, i, QueueSpec.ResumeReceive(s.q), w);
    case MqNotify(pid, request, alive) =>
    case Spurious(i) =>
  }

  predicate Receives(a: Action) {
    a.MqReceive? || a.ResumeReceive?
  }

  function HandleFor(nonblock: bool): Handle {
    Handle(MQI_MAGIC, nonblock)
  }

  /** A step of mq_send or mq_notify, carried out on the region. */
  method PlaySender(mq: MessageQueue, s: System, a: Action) returns (reply: Reply)
    requires mq.Valid() && mq.View() == s.q
    requires MailFits(s) && QueueProtocol.Ready(s, a) && !Receives(a)
    modifies mq, mq.hdrs, mq.data
    ensures mq.Valid() && mq.View() == QueueProtocol.QueueAfter(s, a)
    ensures reply == QueueReplies.ReplyOf(s, a)
  {
    var outcome, signal, notice := QueueSpec.Blocks, false, None;
    match a {
      case MqSend(i, m, nonblock, w) =>
        outcome, signal, notice := mq.Send(HandleFor(nonblock), m.body, m.prio);
      case ResumeSend(i, w) =>
        outcome, signal := mq.ResumeSend(s.mail[i].body, s.mail[i].prio);
      case MqNotify(pid, request, alive) =>
        outcome := mq.Notify(HandleFor(false), pid, request, alive);
      case Spurious(i) =>
    }
    reply := QueueReplies.Reply(outcome, None, signal, notice);
  }

  /** A step of mq_receive, carried out on the region. */
  method PlayReceiver(mq: MessageQueue, s: System, a: Action) returns (reply: Reply)
    requires mq.Valid() && mq.View() == s.q
    requires QueueProtocol.Ready(s, a) && Receives(a)
    modifies mq, mq.hdrs
    ensures mq.Valid() && mq.View() == QueueProtocol.QueueAfter(s, a)
    ensures reply == QueueReplies.ReplyOf(s, a)
  {
    var outcome, signal, message;
    match a {
      case MqReceive(i, nonblock, maxlen, w) =>
        outcome, signal, message := mq.Receive(HandleFor(nonblock), maxlen);
      case ResumeReceive(i, w) =>
        outcome, signal, message := mq.ResumeReceive();
    }
    reply := QueueReplies.Reply(outcome, message, signal, None);
  }

  ghost predicate Proper(s: System) {
    QueueProtocol.Inv(s) && MailFits(s)
  }

  /** One step of the protocol, carried out on the region. */
  method Play(mq: MessageQueue, s: System, a: Action) returns (reply: Reply)
    requires mq.Valid() && mq.View() == s.q && Proper(s) && QueueProtocol.Ready(s, a)
    modifies mq, mq.hdrs, mq.data
    ensures mq.Valid() && mq.View() == QueueProtocol.Step(s, a).q && Proper(QueueProtocol.Step(s, a))
    ensures reply == QueueReplies.Expected(s, a)
  {
    if Receives(a) {
      reply := PlayReceiver(mq, s, a);
    } else {
      reply := PlaySender(mq, s, a);
    }
    QueueProtocol.StepQueue(s, a);
    QueueProtocol.StepKeepsInv(s, a);
    QueueReplies.EveryReply(s, a);
    StepKeepsMail(s, a);
  }

  /** A whole run, carried out on the region. */
  method PlayAll(mq: MessageQueue, s: System, trace: seq<Action>, ghost t: System) returns (replies: seq<Reply>)
    requires mq.Valid() && mq.View() == s.q && Proper(s) && QueueProtocol.Run(s, trace, t)
    modifies mq, mq.hdrs, mq.data
    ensures mq.Valid() && mq.View() == t.q
    ensures replies == AllExpected(s, trace)
    decreases |trace|
  {
    if trace == [] {
      return [];
    }
    var first := Play(mq, s, trace[0]);
    var rest := PlayAll(mq, QueueProtocol.Step(s, trace[0]), trace[1..], t);
    replies := [first] + rest;
  }

  /** Signals sent before, by one step, and by the rest of a run. */
  lemma {:induction false} NoticesJoin(before: seq<QueueSpec.Registration>, first: Reply, rest: seq<Reply>)
    ensures before + NoticesIn([first] + rest) == before + QueueReplies.NoticeOf(first) + NoticesIn(rest)
  {
    assert ([first] + rest)[1..] == rest;
  }

  lemma {:induction false} ExpectedNext(s: System, trace: seq<Action>)
    requires trace != [] && QueueProtocol.Ready(s, trace[0])
    ensures AllExpected(s, trace)
            == [QueueReplies.Expected(s, trace[0])] + AllExpected(QueueProtocol.Step(s, trace[0]), trace[1..])
  {
  }

  lemma {:induction false} NoticesAreKept(s: System, trace: seq<Action>, t: System)
    requires QueueProtocol.Inv(s) && QueueProtocol.Run(s, trace, t)
    ensures t.notices == s.notices + NoticesIn(AllExpected(s, trace))
    decreases |trace|
  {
    if trace != [] {
      var u, e := QueueProtocol.Step(s, trace[0]), QueueReplies.Expected(s, trace[0]);
      assert QueueProtocol.Inv(u) by { QueueProtocol.StepKeepsInv(s, trace[0]); }
      assert u.notices == s.notices + QueueReplies.NoticeOf(e) by { QueueReplies.NoticesAfter(s, trace[0]); }
      NoticesAreKept(u, trace[1..], t);
      ExpectedNext(s, trace);
      NoticesJoin(s.notices, e, AllExpected(u, trace[1..]));
    }
  }

  /** Every run of a newly created queue, under every schedule of its threads: the lists in the
      region never disagree, the region always stands for the abstract queue, every call is
      answered as the reference says, the messages handed out being one by one the oldest of the
      highest priority present, and the processes signalled are those of the protocol, in order. */
  method PlayNew(start: int, maxmsg: int, msgsize: int, n: nat, s: System, trace: seq<Action>, ghost t: System)
    returns (mq: MessageQueue, replies: seq<Reply>)
    requires start >= HEAD + SIZEOF_LONG && QueueProtocol.Init(s, n, maxmsg, msgsize) && QueueProtocol.Run(s, trace, t)
    ensures mq.Valid() && mq.View() == t.q
    ensures replies == AllExpected(s, trace) && NoticesIn(replies) == t.notices
  {
    mq := new MessageQueue(start, maxmsg, msgsize);
    QueueProtocol.InitInv(s, n, maxmsg, msgsize);
    NoticesAreKept(s, trace, t);
    replies := PlayAll(mq, s, trace, t);
  }
}
