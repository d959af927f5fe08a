/**
 Any number of threads sending to, receiving from and registering with one message queue
 (my_pxmsg_mmap).  Every mutex-held section is one step, pthread_cond_wait splits a section in
 two, and spurious wake-ups are allowed.
 */
module QueueProtocol {
  import opened Common
  import opened QueueSpec

  datatype Status =
    | Idle
    | AsleepSend | WokenSend   // inside cond_wait in mq_send, before and after a wake-up
    | AsleepRecv | WokenRecv   // inside cond_wait in mq_receive, before and after a wake-up

  /** mail[i] is the message of a thread blocked in mq_send.  The rest is history: the messages
      present in order of arrival, all messages sent and received, and the registrations made,
      used by a signal (which, in order), and ended otherwise. */
  datatype System = System(
    q: Queue, threads: seq<Status>, mail: seq<Message>,
    arrived: seq<Message>, sent: multiset<Message>, received: multiset<Message>,
    registrations: nat, notices: seq<Registration>, lapsed: nat)

  /** w is the sleeper that a signal wakes, if any thread sleeps. */
  datatype Action =
    | MqSend(i: nat, m: Message, nonblock: bool, w: nat)
    | ResumeSend(i: nat, w: nat)
    | MqReceive(i: nat, nonblock: bool, maxlen: int, w: nat)
    | ResumeReceive(i: nat, w: nat)
    | MqNotify(pid: int, request: Option<bool>, alive: bool)
    | Spurious(i: nat)

  predicate Asleep(p: Status) { p == AsleepSend || p == AsleepRecv }

  predicate InSend(p: Status) {
    p == AsleepSend || p == WokenSend
  }

  function Wakened(p: Status): Status {
    match p case AsleepSend => WokenSend case AsleepRecv => WokenRecv case _ => p
  }

  ghost predicate Init(s: System, n: nat, maxmsg: int, msgsize: int) {
    && s.q == Queue(maxmsg, msgsize, [], 0, None) && maxmsg >= 1 && msgsize >= 1
    && s.threads == seq(n, _ => Idle) && |s.mail| == n
    && s.arrived == [] && s.sent == multiset{} && s.received == multiset{}
    && s.registrations == 0 && s.notices == [] && s.lapsed == 0
  }

  /** A signal wakes a sleeping thread whenever there is one. */
  predicate Chooses(ts: seq<Status>, w: nat) {
    (exists k :: 0 <= k < |ts| && Asleep(ts[k])) ==> w < |ts| && Asleep(ts[w])
  }

  function WakeIf(ts: seq<Status>, signal: bool, w: nat): seq<Status> {
    if signal && w < |ts| then ts[w := Wakened(ts[w])] else ts
  }

  predicate Ready(s: System, a: Action) {
    && |s.mail| == |s.threads|
    && match a
       case MqSend(i, m, nonblock, w) => i < |s.threads| && s.threads[i] == Idle && Chooses(s.threads, w)
       case ResumeSend(i, w) => i < |s.threads| && s.threads[i] == WokenSend && Chooses(s.threads, w)
       case MqReceive(i, nonblock, maxlen, w) => i < |s.threads| && s.threads[i] == Idle && Chooses(s.threads, w)
       case ResumeReceive(i, w) => i < |s.threads| && s.threads[i] == WokenRecv && Chooses(s.threads, w)
       case MqNotify(pid, request, alive) => pid != 0
       case Spurious(i) => i < |s.threads| && Asleep(s.threads[i])
  }

  function AfterSend(s: System, i: nat, m: Message, e: Sending, w: nat): System
    requires i < |s.threads| == |s.mail|
  {
    if e.outcome.Done? then
      var used := s.q.registered.Some? && e.queue.registered.None?;
      s.(q := e.queue, threads := WakeIf(s.threads[i := Idle], e.signal, w),
         arrived := s.arrived + [m], sent := s.sent + multiset{m},
         notices := s.notices + (if e.notice.Some? then [e.notice.value] else []), lapsed := s.lapsed + One(used && e.notice.None?))
    else if e.outcome.Blocks? then
      s.(q := e.queue, threads := s.threads[i := AsleepSend], mail := s.mail[i := m])
    else s.(q := e.queue)
  }

  /** The reference: what is received is whatever message must be served next. */
  function AfterReceive(s: System, i: nat, e: Receiving, w: nat): System
    requires i < |s.threads| == |s.mail|
  {
    if e.outcome.Done? && e.message.Some? then
      s.(q := e.queue, threads := WakeIf(s.threads[i := Idle], e.signal, w),
         arrived := if s.arrived == [] then [] else Without(s.arrived, Oldest(s.arrived)),
         received := s.received + multiset{e.message.value})
    else if e.outcome.Blocks? then s.(q := e.queue, threads := s.threads[i := AsleepRecv])
    else s.(q := e.queue)
  }

  function AfterNotify(s: System, pid: int, request: Option<bool>, alive: bool): System {
    var (q, outcome) := QueueSpec.Notify(s.q, pid, request, alive);
    s.(q := q,
       registrations := s.registrations + One(request.Some? && outcome.Done?),
       lapsed := s.lapsed + One(s.q.registered.Some? && outcome.Done? && (request.Some? || q.registered.None?)))
  }

  function Step(s: System, a: Action): System
    requires Ready(s, a)
  {
    match a
    case MqSend(i, m, nonblock, w) => AfterSend(s, i, m, QueueSpec.Send(s.q, nonblock, m), w)
    case ResumeSend(i, w) => AfterSend(s, i, s.mail[i], QueueSpec.ResumeSend(s.q, s.mail[i]), w)
    case MqReceive(i, nonblock, maxlen, w) => AfterReceive(s, i, QueueSpec.Receive(s.q, nonblock, maxlen), w)
    case ResumeReceive(i, w) => AfterReceive(s, i, QueueSpec.ResumeReceive(s.q), w)
    case MqNotify(pid, request, alive) => AfterNotify(s, pid, request, alive)
    case Spurious(i) => s.(threads := s.threads[i := Wakened(s.threads[i])])
  }

  /** What step a does to the queue itself. */
  function QueueAfter(s: System, a: Action): Queue
    requires Ready(s, a)
  {
    match a
    case MqSend(i, m, nonblock, w) => QueueSpec.Send(s.q, nonblock, m).queue
    case ResumeSend(i, w) => QueueSpec.ResumeSend(s.q, s.mail[i]).queue
    case MqReceive(i, nonblock, maxlen, w) => QueueSpec.Receive(s.q, nonblock, maxlen).queue
    case ResumeReceive(i, w) => QueueSpec.ResumeReceive(s.q).queue
    case MqNotify(pid, request, alive) => QueueSpec.Notify(s.q, pid, request, alive).0
    case Spurious(i) => s.q
  }

  lemma {:induction false} StepQueue(s: System, a: Action)
    requires Ready(s, a)
    ensures Step(s, a).q == QueueAfter(s, a)
    ensures Step(s, a).q.maxmsg == s.q.maxmsg && Step(s, a).q.msgsize == s.q.msgsize
  {
    QueueKeepsSizes(s, a);
  }

  lemma {:induction false} QueueKeepsSizes(s: System, a: Action)
    requires Ready(s, a)
    ensures QueueAfter(s, a).maxmsg == s.q.maxmsg && QueueAfter(s, a).msgsize == s.q.msgsize
  {
  }

  ghost predicate Run(s: System, trace: seq<Action>, t: System)
    decreases |trace|
  {
    if trace == [] then s == t else Ready(s, trace[0]) && Run(Step(s, trace[0]), trace[1..], t)
  }

  // ---------------------------------------------------------------- invariant

  function InReceive(p: Status): int { if p == AsleepRecv || p == WokenRecv then 1 else 0 }

  /** The list is the stable priority order of what has arrived and not been received. */
  ghost predicate Refines(s: System) {
    && s.q.msgs == StableSort(s.arrived)
    && |s.q.msgs| <= s.q.maxmsg && 1 <= s.q.maxmsg
    && s.sent == s.received + multiset(s.arrived)
  }

  /** Every registration is still there, was used up by one signal, or ended without one. */
  ghost predicate Notified(s: System) {
    s.registrations == |s.notices| + s.lapsed + One(s.q.registered.Some?)
  }

  ghost predicate Inv(s: System) {
    && |s.mail| == |s.threads|
    && Refines(s) && Notified(s)
    && s.q.nwait == Total(InReceive, s.threads)
  }

  /** What any section of mq_send can do. */
  ghost predicate Sends(q: Queue, m: Message, e: Sending) {
    if e.outcome.Done? then
      && |q.msgs| < q.maxmsg
      && e.queue == q.(msgs := Insert(q.msgs, m), registered := e.queue.registered)
      && e.signal == (|q.msgs| == 0)
      && (e.queue.registered == q.registered || e.queue.registered.None?)
      && (e.notice.Some? ==> q.registered.Some? && e.queue.registered.None?)
    else e.queue == q && (e.outcome.Blocks? ==> |q.msgs| >= q.maxmsg)
  }

  lemma SendSends(q: Queue, nonblock: bool, m: Message)
    requires q.maxmsg >= 1
    ensures Sends(q, m, QueueSpec.Send(q, nonblock, m)) && Sends(q, m, QueueSpec.ResumeSend(q, m))
  {
  }

  /** What any section of mq_receive can do; resumed: the thread is counted in nwait already. */
  ghost predicate Receives(q: Queue, resumed: bool, e: Receiving) {
    if e.outcome.Done? then
      && |q.msgs| > 0 && e.message == Some(q.msgs[0])
      && e.queue == q.(msgs := q.msgs[1..], nwait := q.nwait - One(resumed))
      && e.signal == (|q.msgs| == q.maxmsg)
    else if e.outcome.Blocks? then |q.msgs| == 0 && e.queue == q.(nwait := q.nwait + One(!resumed))
    else e.queue == q && !resumed
  }

  lemma ReceiveReceives(q: Queue, nonblock: bool, maxlen: int)
    ensures Receives(q, false, QueueSpec.Receive(q, nonblock, maxlen))
    ensures Receives(q, true, QueueSpec.ResumeReceive(q))
  {
  }

  lemma WakeKeepsCount(ts: seq<Status>, signal: bool, w: nat)
    ensures Total(InReceive, WakeIf(ts, signal, w)) == Total(InReceive, ts)
  {
    TotalSame(InReceive, ts, WakeIf(ts, signal, w));
  }

  lemma {:induction false} SendKeepsInv(s: System, i: nat, m: Message, e: Sending, w: nat)
    requires Inv(s) && i < |s.threads| && InReceive(s.threads[i]) == 0
    requires Sends(s.q, m, e)
    ensures Inv(AfterSend(s, i, m, e, w))
  {
    TotalUpdate(InReceive, s.threads, i, Idle);
    TotalUpdate(InReceive, s.threads, i, AsleepSend);
    WakeKeepsCount(s.threads[i := Idle], e.signal, w);
    StableSortArrival(s.arrived, m);
    InsertAdds(s.q.msgs, m);
  }

  lemma WithoutRemoves(a: seq<Message>, i: int)
    requires 0 <= i < |a|
    ensures multiset(a) == multiset(Without(a, i)) + multiset{a[i]}
  {
    assert a == a[..i] + [a[i]] + a[i + 1..];
  }

  /** A receive takes the message that must be served next. */
  lemma {:induction false} ServesOldest(s: System)
    requires Refines(s) && s.q.msgs != []
    ensures s.arrived != []
    ensures s.q.msgs[0] == s.arrived[Oldest(s.arrived)]
    ensures s.q.msgs[1..] == StableSort(Without(s.arrived, Oldest(s.arrived)))
    ensures multiset(s.arrived) == multiset(Without(s.arrived, Oldest(s.arrived))) + multiset{s.q.msgs[0]}
  {
    HeadIsOldest(s.arrived);
    WithoutRemoves(s.arrived, Oldest(s.arrived));
  }

  lemma {:induction false} ReceiveKeepsInv(s: System, i: nat, e: Receiving, w: nat)
    requires Inv(s) && i < |s.threads| && (s.threads[i] == Idle || s.threads[i] == WokenRecv)
    requires Receives(s.q, s.threads[i] == WokenRecv, e)
    ensures Inv(AfterReceive(s, i, e, w))
  {
    TotalUpdate(InReceive, s.threads, i, Idle);
    TotalUpdate(InReceive, s.threads, i, AsleepRecv);
    WakeKeepsCount(s.threads[i := Idle], e.signal, w);
    if e.outcome.Done? {
      ServesOldest(s);
    }
  }

  lemma {:induction false} StepKeepsInv(s: System, a: Action)
    requires Inv(s) && Ready(s, a)
    ensures Inv(Step(s, a))
  {
    match a
    case MqSend(i, m, nonblock, w) =>
      SendSends(s.q, nonblock, m);
      SendKeepsInv(s, i, m, QueueSpec.Send(s.q, nonblock, m), w);
    case ResumeSend(i, w) =>
      SendSends(s.q, false, s.mail[i]);
      SendKeepsInv(s, i, s.mail[i], QueueSpec.ResumeSend(s.q, s.mail[i]), w);
    case MqReceive(i, nonblock, maxlen, w) =>
      ReceiveReceives(s.q, nonblock, maxlen);
      ReceiveKeepsInv(s, i, QueueSpec.Receive(s.q, nonblock, maxlen), w);
    case ResumeReceive(i, w) =>
      ReceiveReceives(s.q, false, 0);
      ReceiveKeepsInv(s, i, QueueSpec.ResumeReceive(s.q), w);
    case MqNotify(pid, request, alive) =>
      NotifyKeepsInv(s, pid, request, alive);
    case Spurious(i) =>
      TotalUpdate(InReceive, s.threads, i, Wakened(s.threads[i]));
  }

  lemma {:induction false} NotifyKeepsInv(s: System, pid: int, request: Option<bool>, alive: bool)
    requires Inv(s)
    ensures Inv(AfterNotify(s, pid, request, alive))
  {
  }

  lemma InitInv(s: System, n: nat, maxmsg: int, msgsize: int)
    requires Init(s, n, maxmsg, msgsize)
    ensures Inv(s)
  {
    TotalUniform(InReceive, s.threads, 0);
  }

  lemma {:induction false} RunKeepsInv(s: System, trace: seq<Action>, t: System)
    requires Inv(s) && Run(s, trace, t)
    ensures Inv(t)
    decreases |trace|
  {
    if trace != [] {
      StepKeepsInv(s, trace[0]);
      RunKeepsInv(Step(s, trace[0]), trace[1..], t);
    }
  }

  // ---------------------------------------------------------------- what receivers get

  /** In every run, whatever a receive returns is the oldest message of the highest priority
      present, with the bytes and the priority it was sent with; and no message is lost,
      duplicated or invented. */
  lemma {:induction false} EveryReceiveIsOldest(s: System, n: nat, maxmsg: int, msgsize: int, trace: seq<Action>, t: System,
                             e: Receiving, nonblock: bool, maxlen: int)
    requires Init(s, n, maxmsg, msgsize) && Run(s, trace, t)
    requires e == QueueSpec.Receive(t.q, nonblock, maxlen) || e == QueueSpec.ResumeReceive(t.q)
    ensures t.sent == t.received + multiset(t.arrived)
    ensures e.message.Some? ==> exists i :: OldestOfHighest(t.arrived, i) && e.message.value == t.arrived[i]
    ensures e.outcome.Blocks? <==> t.arrived == [] && (e == QueueSpec.ResumeReceive(t.q) || (maxlen >= t.q.msgsize && !nonblock))
  {
    InitInv(s, n, maxmsg, msgsize);
    RunKeepsInv(s, trace, t);
    StableSortSorts(t.arrived);
    if t.q.msgs != [] {
      ServesOldest(t);
      assert OldestOfHighest(t.arrived, Oldest(t.arrived));
    }
  }

  // ---------------------------------------------------------------- notification

  /** Step a is a first-time send that takes the queue from 0 to 1 messages with no thread inside
      mq_receive's wait: it ends the registration, with a signal or without. */
  ghost predicate UsesUp(t: System, a: Action) {
    && a.MqSend? && |a.m.body| <= t.q.msgsize && t.arrived == []
    && Total(InReceive, t.threads) == 0
  }

  /** In every run a step sends a notification exactly when it is such a send and a process is
      registered for a signal; it signals that process and uses up the registration. */
  lemma {:induction false} NoticeIffArrival(s: System, n: nat, maxmsg: int, msgsize: int, trace: seq<Action>, t: System, a: Action)
    requires Init(s, n, maxmsg, msgsize) && Run(s, trace, t) && Ready(t, a)
    ensures Step(t, a).notices == t.notices +
              if UsesUp(t, a) && t.q.registered.Some? && t.q.registered.value.signals then [t.q.registered.value] else []
    ensures UsesUp(t, a) ==> |Step(t, a).q.msgs| == 1 && Step(t, a).q.registered.None?
    ensures |t.notices| <= t.registrations
  {
    InitInv(s, n, maxmsg, msgsize);
    RunKeepsInv(s, trace, t);
    StableSortSorts(t.arrived);
    if a.MqSend? {
      StepQueue(t, a);
      SendNotifies(t, a);
    } else {
      OthersNotifyNobody(t, a);
    }
  }

  lemma {:induction false} OthersNotifyNobody(t: System, a: Action)
    requires Ready(t, a) && !a.MqSend?
    ensures Step(t, a).notices == t.notices
  {
  }

  lemma {:induction false} SendNotifies(t: System, a: Action)
    requires Inv(t) && Ready(t, a) && a.MqSend? && (t.arrived == [] <==> t.q.msgs == [])
    ensures Step(t, a).notices == t.notices +
              if UsesUp(t, a) && t.q.registered.Some? && t.q.registered.value.signals then [t.q.registered.value] else []
    ensures UsesUp(t, a) ==> |QueueAfter(t, a).msgs| == 1 && QueueAfter(t, a).registered.None?
  {
  }
}
