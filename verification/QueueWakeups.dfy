/**
 When the message queue (my_pxmsg_mmap) wakes and notifies those it should: exact conditions on
 which of the threads ever block, for any number of threads that do not.
 */
module QueueWakeups {
  import opened Common
  import QueueSpec
  import opened QueueProtocol

  // ---------------------------------------------------------------- who may block

  /** n threads and a queue of a given size; only the threads in ws ever call mq_send or
      mq_receive without O_NONBLOCK. */
  datatype Config = Config(n: nat, maxmsg: int, msgsize: int, ws: set<nat>)

  ghost predicate Proper(c: Config) {
    c.maxmsg >= 1 && c.msgsize >= 1 && forall i :: i in c.ws ==> i < c.n
  }

  predicate MayCall(a: Action, ws: set<nat>) {
    (a.MqSend? || a.MqReceive?) && !a.nonblock ==> a.i in ws
  }

  ghost predicate MayCallAll(trace: seq<Action>, ws: set<nat>) {
    forall k :: 0 <= k < |trace| ==> MayCall(trace[k], ws)
  }

  /** Some run of the threads leads to t. */
  ghost predicate Reaches(c: Config, t: System) {
    exists s, trace :: Init(s, c.n, c.maxmsg, c.msgsize) && Run(s, trace, t) && MayCallAll(trace, c.ws)
  }

  lemma {:induction false} RunSnoc(s: System, trace: seq<Action>, t: System, a: Action)
    requires Run(s, trace, t) && Ready(t, a)
    ensures Run(s, trace + [a], Step(t, a))
    decreases |trace|
  {
    if trace == [] {
      assert Run(Step(t, a), [], Step(t, a));
    } else {
      assert (trace + [a])[1..] == trace[1..] + [a];
      RunSnoc(Step(s, trace[0]), trace[1..], t, a);
    }
  }

  lemma {:induction false} ReachNext(c: Config, t: System, a: Action)
    requires Reaches(c, t) && Ready(t, a) && MayCall(a, c.ws)
    ensures Reaches(c, Step(t, a))
  {
    var s, trace :| Init(s, c.n, c.maxmsg, c.msgsize) && Run(s, trace, t) && MayCallAll(trace, c.ws);
    RunSnoc(s, trace, t, a);
    assert MayCallAll(trace + [a], c.ws);
  }

  lemma {:induction false} ReachNew(c: Config) returns (t: System)
    requires Proper(c)
    ensures Reaches(c, t) && |t.mail| == c.n
    ensures t.q == QueueSpec.Queue(c.maxmsg, c.msgsize, [], 0, None) && t.threads == seq(c.n, _ => Idle)
  {
    t := System(QueueSpec.Queue(c.maxmsg, c.msgsize, [], 0, None), seq(c.n, _ => Idle), seq(c.n, _ => QueueSpec.Message([], 0)),
                [], multiset{}, multiset{}, 0, [], 0);
    assert Run(t, [], t) && MayCallAll([], c.ws);
  }

  ghost predicate WaitersIn(s: System, ws: set<nat>) {
    forall i: nat :: i < |s.threads| && s.threads[i] != Idle ==> i in ws
  }

  lemma {:induction false} SendKeepsWaiters(s: System, i: nat, m: QueueSpec.Message, e: QueueSpec.Sending, w: nat, ws: set<nat>)
    requires WaitersIn(s, ws) && i < |s.threads| == |s.mail| && (e.outcome.Blocks? ==> i in ws)
    ensures WaitersIn(AfterSend(s, i, m, e, w), ws) && |AfterSend(s, i, m, e, w).threads| == |s.threads|
  {
  }

  lemma {:induction false} ReceiveKeepsWaiters(s: System, i: nat, e: QueueSpec.Receiving, w: nat, ws: set<nat>)
    requires WaitersIn(s, ws) && i < |s.threads| == |s.mail| && (e.outcome.Blocks? ==> i in ws)
    ensures WaitersIn(AfterReceive(s, i, e, w), ws) && |AfterReceive(s, i, e, w).threads| == |s.threads|
  {
  }

  /** Only threads that may block are ever inside a call between two steps. */
  lemma {:induction false} StepKeepsWaiters(s: System, a: Action, ws: set<nat>)
    requires WaitersIn(s, ws) && Ready(s, a) && MayCall(a, ws)
    ensures WaitersIn(Step(s, a), ws) && |Step(s, a).threads| == |s.threads|
  {
    match a
    case MqSend(i, m, nonblock, w) => SendKeepsWaiters(s, i, m, QueueSpec.Send(s.q, nonblock, m), w, ws);
    case ResumeSend(i, w) => SendKeepsWaiters(s, i, s.mail[i], QueueSpec.ResumeSend(s.q, s.mail[i]), w, ws);
    case MqReceive(i, nonblock, maxlen, w) =>
      ReceiveKeepsWaiters(s, i, QueueSpec.Receive(s.q, nonblock, maxlen), w, ws);
    case ResumeReceive(i, w) => ReceiveKeepsWaiters(s, i, QueueSpec.ResumeReceive(s.q), w, ws);
    case MqNotify(pid, request, alive) =>
    case Spurious(i) =>
  }

  // ---------------------------------------------------------------- missed notifications

  /** Step a brings a message into the empty queue of a process registered for a signal, with no
      thread waiting in mq_receive: what mq_notify is for. */
  ghost predicate Arrives(t: System, a: Action)
    requires Ready(t, a)
  {
    && t.q.msgs == [] && |Step(t, a).q.msgs| == 1
    && t.q.registered.Some? && t.q.registered.value.signals
    && Total(InReceive, t.threads) == 0
  }

  ghost predicate AlwaysNotified(c: Config) {
    forall t, a :: Reaches(c, t) && Ready(t, a) && MayCall(a, c.ws) && Arrives(t, a) ==>
                     Step(t, a).notices == t.notices + [t.q.registered.value]
  }

  /** A blocked sender keeps the queue full. */
  ghost predicate SendersHeld(s: System) {
    forall i :: 0 <= i < |s.threads| && InSend(s.threads[i]) ==> |s.q.msgs| >= s.q.maxmsg
  }

  lemma {:induction false} RunHoldsSenders(s: System, trace: seq<Action>, t: System, ws: set<nat>)
    requires Inv(s) && SendersHeld(s) && WaitersIn(s, ws) && (ws == {} || |s.threads| <= 1)
    requires Run(s, trace, t) && MayCallAll(trace, ws)
    ensures Inv(t) && SendersHeld(t)
    decreases |trace|
  {
    if trace != [] {
      StepKeepsInv(s, trace[0]);
      StepKeepsWaiters(s, trace[0], ws);
      StepHoldsSenders(s, trace[0], ws);
      RunHoldsSenders(Step(s, trace[0]), trace[1..], t, ws);
    }
  }

  lemma {:induction false} SendHoldsSenders(s: System, i: nat, m: QueueSpec.Message, e: QueueSpec.Sending, w: nat)
    requires SendersHeld(s) && i < |s.threads| == |s.mail| && Sends(s.q, m, e)
    requires forall k :: 0 <= k < |s.threads| && k != i ==> s.threads[k] == Idle
    ensures SendersHeld(AfterSend(s, i, m, e, w))
  {
  }

  lemma {:induction false} ReceiveHoldsSenders(s: System, i: nat, e: QueueSpec.Receiving, w: nat)
    requires SendersHeld(s) && i < |s.threads| == |s.mail| && Receives(s.q, s.threads[i] == WokenRecv, e)
    requires s.threads[i] == Idle || s.threads[i] == WokenRecv
    requires forall k :: 0 <= k < |s.threads| && k != i ==> s.threads[k] == Idle
    ensures SendersHeld(AfterReceive(s, i, e, w))
  {
  }

  lemma {:induction false} StepHoldsSenders(s: System, a: Action, ws: set<nat>)
    requires SendersHeld(s) && WaitersIn(s, ws) && (ws == {} || |s.threads| <= 1) && s.q.maxmsg >= 1
    requires Ready(s, a)
    ensures SendersHeld(Step(s, a))
  {
    match a
    case MqSend(i, m, nonblock, w) =>
      SendSends(s.q, nonblock, m);
      SendHoldsSenders(s, i, m, QueueSpec.Send(s.q, nonblock, m), w);
    case ResumeSend(i, w) =>
      SendSends(s.q, false, s.mail[i]);
      SendHoldsSenders(s, i, s.mail[i], QueueSpec.ResumeSend(s.q, s.mail[i]), w);
    case MqReceive(i, nonblock, maxlen, w) =>
      ReceiveReceives(s.q, nonblock, maxlen);
      ReceiveHoldsSenders(s, i, QueueSpec.Receive(s.q, nonblock, maxlen), w);
    case ResumeReceive(i, w) =>
      ReceiveReceives(s.q, false, 0);
      ReceiveHoldsSenders(s, i, QueueSpec.ResumeReceive(s.q), w);
    case MqNotify(pid, request, alive) =>
    case Spurious(i) =>
  }

  /** k messages in the queue and everybody idle. */
  ghost predicate Filled(c: Config, t: System, k: int) {
    && Reaches(c, t) && |t.mail| == c.n && t.threads == seq(c.n, _ => Idle)
    && t.q == QueueSpec.Queue(c.maxmsg, c.msgsize, t.q.msgs, 0, None) && |t.q.msgs| == k
  }

  lemma {:induction false} Fill(c: Config, i: nat, k: nat) returns (t: System)
    requires Proper(c) && i < c.n && k <= c.maxmsg
    ensures Filled(c, t, k)
  {
    if k == 0 {
      t := ReachNew(c);
    } else {
      var u := Fill(c, i, k - 1);
      var a := MqSend(i, QueueSpec.Message([], 0), true, 0);
      ReachNext(c, u, a);
      QueueSpec.InsertAdds(u.q.msgs, a.m);
      t := Step(u, a);
    }
  }

  /** Thread w blocked in mq_send when the queue was full; k messages are left. */
  ghost predicate Drained(c: Config, t: System, w: nat, k: int) {
    && Reaches(c, t) && w < c.n && |t.mail| == c.n
    && t.threads == seq(c.n, _ => Idle)[w := if k == c.maxmsg then AsleepSend else WokenSend]
    && t.q == QueueSpec.Queue(c.maxmsg, c.msgsize, t.q.msgs, 0, None) && |t.q.msgs| == k
  }

  lemma {:induction false} Drain(c: Config, w: nat, i: nat, k: nat) returns (t: System)
    requires Proper(c) && w in c.ws && i < c.n && i != w && k <= c.maxmsg
    ensures Drained(c, t, w, k)
    decreases c.maxmsg - k
  {
    if k == c.maxmsg {
      var u := Fill(c, i, k);
      var a := MqSend(w, QueueSpec.Message([], 0), false, 0);
      ReachNext(c, u, a);
      t := Step(u, a);
    } else {
      var u := Drain(c, w, i, k + 1);
      var a := MqReceive(i, true, c.msgsize, w);
      ReachNext(c, u, a);
      t := Step(u, a);
      assert u.threads[i := Idle] == u.threads;
    }
  }

  /** A process can stay registered, unsignalled, although a message has come into its empty
      queue: the sender had blocked, and a resumed sender does not look at the registration. */
  lemma {:induction false} ResumedSenderNotifiesNobody(c: Config, w: nat, i: nat) returns (t: System)
    requires Proper(c) && w in c.ws && i < c.n && i != w
    ensures Reaches(c, t) && Ready(t, ResumeSend(w, 0)) && Arrives(t, ResumeSend(w, 0))
    ensures Step(t, ResumeSend(w, 0)).notices == t.notices
    ensures Step(t, ResumeSend(w, 0)).q.registered == t.q.registered
  {
    var u := Drain(c, w, i, 0);
    var a := MqNotify(7, Some(true), false);
    ReachNext(c, u, a);
    t := Step(u, a);
    TotalUniform(InReceive, t.threads, 0);
  }

  lemma {:induction false} ArrivalIsNoticed(c: Config, t: System, a: Action)
    requires Proper(c) && (c.ws == {} || c.n <= 1)
    requires Reaches(c, t) && Ready(t, a) && Arrives(t, a)
    ensures Step(t, a).notices == t.notices + [t.q.registered.value]
  {
    var s, trace :| Init(s, c.n, c.maxmsg, c.msgsize) && Run(s, trace, t) && MayCallAll(trace, c.ws);
    InitInv(s, c.n, c.maxmsg, c.msgsize);
    RunHoldsSenders(s, trace, t, c.ws);
    NoticeIffArrival(s, c.n, c.maxmsg, c.msgsize, trace, t, a);
  }

  /** A registered process is signalled at every arrival in its empty queue exactly when nobody
      calls mq_send or mq_receive without O_NONBLOCK or there is only one thread. */
  lemma {:induction false} NotifiedIffNobodyBlocks(c: Config)
    requires Proper(c)
    ensures AlwaysNotified(c) <==> c.ws == {} || c.n <= 1
  {
    if c.ws == {} || c.n <= 1 {
      forall t, a | Reaches(c, t) && Ready(t, a) && MayCall(a, c.ws) && Arrives(t, a)
        ensures Step(t, a).notices == t.notices + [t.q.registered.value]
      {
        ArrivalIsNoticed(c, t, a);
      }
    } else {
      var w :| w in c.ws;
      var t := ResumedSenderNotifiesNobody(c, w, if w == 0 then 1 else 0);
      assert MayCall(ResumeSend(w, 0), c.ws);
    }
  }

  // ---------------------------------------------------------------- sleepers

  /** A thread asleep in mq_receive means an empty queue, one asleep in mq_send a full one. */
  ghost predicate SleepersJustified(s: System) {
    forall i :: 0 <= i < |s.threads| ==>
      && (s.threads[i] == AsleepRecv ==> s.q.msgs == [])
      && (s.threads[i] == AsleepSend ==> |s.q.msgs| >= s.q.maxmsg)
  }

  /** The least a blocked thread needs: what it waits for has not come, or somebody woken is on
      the way to take it. */
  ghost predicate Covered(s: System) {
    forall i :: 0 <= i < |s.threads| ==>
      && (s.threads[i] == AsleepRecv ==> s.q.msgs == [] || WokenRecv in s.threads)
      && (s.threads[i] == AsleepSend ==> |s.q.msgs| >= s.q.maxmsg || WokenSend in s.threads)
  }

  predicate SleepsBeside(s: System, i: nat, j: int) {
    0 <= j < |s.threads| && j != i && Asleep(s.threads[j])
  }

  /** Besides thread i at most one thread sleeps. */
  ghost predicate LoneSleeper(s: System, i: nat) {
    forall j, k :: SleepsBeside(s, i, j) && SleepsBeside(s, i, k) ==> j == k
  }

  lemma {:induction false} SendJustifies(s: System, i: nat, m: QueueSpec.Message, e: QueueSpec.Sending, w: nat)
    requires SleepersJustified(s) && |s.q.msgs| <= s.q.maxmsg && i < |s.threads| == |s.mail|
    requires !Asleep(s.threads[i]) && LoneSleeper(s, i) && Chooses(s.threads, w) && Sends(s.q, m, e)
    ensures SleepersJustified(AfterSend(s, i, m, e, w))
  {
    var t := AfterSend(s, i, m, e, w);
    forall k: nat | k < |t.threads| && Asleep(t.threads[k])
      ensures t.threads[k] == AsleepRecv ==> t.q.msgs == []
      ensures t.threads[k] == AsleepSend ==> |t.q.msgs| >= t.q.maxmsg
    {
      assert k != i ==> SleepsBeside(s, i, k) && Asleep(s.threads[k]) && SleepsBeside(s, i, w);
    }
  }

  lemma {:induction false} ReceiveJustifies(s: System, i: nat, e: QueueSpec.Receiving, w: nat)
    requires SleepersJustified(s) && |s.q.msgs| <= s.q.maxmsg && i < |s.threads| == |s.mail|
    requires !Asleep(s.threads[i]) && LoneSleeper(s, i) && Chooses(s.threads, w)
    requires Receives(s.q, s.threads[i] == WokenRecv, e)
    ensures SleepersJustified(AfterReceive(s, i, e, w))
  {
    var t := AfterReceive(s, i, e, w);
    forall k: nat | k < |t.threads| && Asleep(t.threads[k])
      ensures t.threads[k] == AsleepRecv ==> t.q.msgs == []
      ensures t.threads[k] == AsleepSend ==> |t.q.msgs| >= t.q.maxmsg
    {
      assert k != i ==> SleepsBeside(s, i, k) && Asleep(s.threads[k]) && SleepsBeside(s, i, w);
    }
  }

  lemma {:induction false} StepJustifies(s: System, a: Action)
    requires 1 <= s.q.maxmsg && |s.q.msgs| <= s.q.maxmsg
    requires SleepersJustified(s) && Ready(s, a)
    requires a.MqNotify? || LoneSleeper(s, a.i)
    ensures SleepersJustified(Step(s, a))
  {
    match a
    case MqSend(i, m, nonblock, w) =>
      SendSends(s.q, nonblock, m);
      SendJustifies(s, i, m, QueueSpec.Send(s.q, nonblock, m), w);
    case ResumeSend(i, w) =>
      SendSends(s.q, false, s.mail[i]);
      SendJustifies(s, i, s.mail[i], QueueSpec.ResumeSend(s.q, s.mail[i]), w);
    case MqReceive(i, nonblock, maxlen, w) =>
      ReceiveReceives(s.q, nonblock, maxlen);
      ReceiveJustifies(s, i, QueueSpec.Receive(s.q, nonblock, maxlen), w);
    case ResumeReceive(i, w) =>
      ReceiveReceives(s.q, false, 0);
      ReceiveJustifies(s, i, QueueSpec.ResumeReceive(s.q), w);
    case MqNotify(pid, request, alive) =>
    case Spurious(i) =>
  }

  lemma {:induction false} FewSleepers(s: System, ws: set<nat>, i: nat)
    requires WaitersIn(s, ws) && (|ws| <= 1 || |s.threads| <= 2) && i < |s.threads|
    ensures LoneSleeper(s, i)
  {
    forall j, k | SleepsBeside(s, i, j) && SleepsBeside(s, i, k)
      ensures j == k
    {
      if j != k && |ws| <= 1 {
        TwoMembers(ws, j, k);
      }
    }
  }

  lemma {:induction false} RunJustifies(s: System, trace: seq<Action>, t: System, ws: set<nat>)
    requires Inv(s) && SleepersJustified(s) && WaitersIn(s, ws) && (|ws| <= 1 || |s.threads| <= 2)
    requires Run(s, trace, t) && MayCallAll(trace, ws)
    ensures SleepersJustified(t)
    decreases |trace|
  {
    if trace != [] {
      if !trace[0].MqNotify? {
        FewSleepers(s, ws, trace[0].i);
      }
      StepKeepsInv(s, trace[0]);
      StepKeepsWaiters(s, trace[0], ws);
      StepJustifies(s, trace[0]);
      RunJustifies(Step(s, trace[0]), trace[1..], t, ws);
    }
  }

  /** With one thread that ever blocks, whatever the number of the others, or with two threads,
      in every run, a thread asleep in mq_receive means an empty queue and a thread asleep in
      mq_send a full one. */
  lemma {:induction false} OneBlockerNeverOversleeps(c: Config, t: System)
    requires Proper(c) && (|c.ws| <= 1 || c.n <= 2) && Reaches(c, t)
    ensures SleepersJustified(t)
  {
    var s, trace :| Init(s, c.n, c.maxmsg, c.msgsize) && Run(s, trace, t) && MayCallAll(trace, c.ws);
    InitInv(s, c.n, c.maxmsg, c.msgsize);
    RunJustifies(s, trace, t, c.ws);
  }

  // ---------------------------------------------------------------- two blockers, a short queue

  /** Nobody but x and y is ever inside a call. */
  ghost predicate Pair(s: System, x: nat, y: nat) {
    forall i: nat :: i < |s.threads| && s.threads[i] != Idle ==> i == x || i == y
  }

  /** A waker in t if there was one in s. */
  lemma {:induction false} StaysWoken(s: System, t: System, i: nat, p: Status)
    requires p in s.threads && |t.threads| == |s.threads|
    requires forall k :: 0 <= k < |s.threads| && k != i && s.threads[k] == p ==> t.threads[k] == p
    requires i < |s.threads| ==> s.threads[i] != p
    ensures p in t.threads
  {
    var k :| 0 <= k < |s.threads| && s.threads[k] == p;
    assert t.threads[k] == p;
  }

  /** With both of the pair asleep nobody is woken, so both wait for the same thing. */
  lemma {:induction false} BothAsleep(s: System, x: nat, y: nat, k: nat, w: nat)
    requires Covered(s) && Pair(s, x, y) && s.q.maxmsg >= 1
    requires k < |s.threads| && w < |s.threads| && k != w && Asleep(s.threads[k]) && Asleep(s.threads[w])
    ensures s.threads[k] == s.threads[w]
    ensures s.threads[k] == AsleepRecv ==> s.q.msgs == []
    ensures s.threads[k] == AsleepSend ==> |s.q.msgs| >= s.q.maxmsg
  {
    assert WokenRecv !in s.threads && WokenSend !in s.threads;
  }

  lemma {:induction false} SendDoneCovers(s: System, i: nat, m: QueueSpec.Message, e: QueueSpec.Sending, w: nat, x: nat, y: nat)
    requires Covered(s) && Pair(s, x, y) && 1 <= s.q.maxmsg && |s.q.msgs| <= s.q.maxmsg <= 2
    requires i < |s.threads| == |s.mail| && (s.threads[i] == Idle || s.threads[i] == WokenSend)
    requires Chooses(s.threads, w) && Sends(s.q, m, e) && e.outcome.Done?
    ensures Covered(AfterSend(s, i, m, e, w))
  {
    var t := AfterSend(s, i, m, e, w);
    assert |t.q.msgs| == |s.q.msgs| + 1 by { QueueSpec.InsertAdds(s.q.msgs, m); }
    forall k: nat | k < |t.threads| && Asleep(t.threads[k])
      ensures t.threads[k] == AsleepRecv ==> WokenRecv in t.threads
      ensures t.threads[k] == AsleepSend ==> |t.q.msgs| >= t.q.maxmsg || WokenSend in t.threads
    {
      assert k != i && s.threads[k] == t.threads[k];
      assert Asleep(s.threads[w]) && w != i;
      if s.q.msgs == [] {
        assert t.threads[w] == Wakened(s.threads[w]) && w != k;
        BothAsleep(s, x, y, k, w);
      } else if t.threads[k] == AsleepRecv {
        StaysWoken(s, t, i, WokenRecv);
      }
    }
  }

  lemma {:induction false} ReceiveDoneCovers(s: System, i: nat, e: QueueSpec.Receiving, w: nat, x: nat, y: nat)
    requires Covered(s) && Pair(s, x, y) && 1 <= s.q.maxmsg && |s.q.msgs| <= s.q.maxmsg <= 2
    requires i < |s.threads| == |s.mail| && (s.threads[i] == Idle || s.threads[i] == WokenRecv)
    requires Chooses(s.threads, w) && Receives(s.q, s.threads[i] == WokenRecv, e) && e.outcome.Done?
    ensures Covered(AfterReceive(s, i, e, w))
  {
    var t := AfterReceive(s, i, e, w);
    forall k: nat | k < |t.threads| && Asleep(t.threads[k])
      ensures t.threads[k] == AsleepRecv ==> t.q.msgs == [] || WokenRecv in t.threads
      ensures t.threads[k] == AsleepSend ==> WokenSend in t.threads
    {
      assert k != i && s.threads[k] == t.threads[k];
      assert Asleep(s.threads[w]) && w != i;
      if |s.q.msgs| == s.q.maxmsg {
        assert t.threads[w] == Wakened(s.threads[w]) && w != k;
        BothAsleep(s, x, y, k, w);
      } else if t.threads[k] == AsleepSend {
        StaysWoken(s, t, i, WokenSend);
      }
    }
  }

  /** A thread that goes to sleep leaves nobody uncovered. */
  lemma {:induction false} BlockCovers(s: System, t: System, i: nat, x: nat, y: nat, p: Status)
    requires Covered(s) && Pair(s, x, y) && Pair(t, x, y) && i < |s.threads| && s.q.maxmsg >= 1
    requires t.threads == s.threads[i := p] && t.q == s.q.(nwait := t.q.nwait)
    requires if p == AsleepSend then |s.q.msgs| >= s.q.maxmsg && s.threads[i] in {Idle, WokenSend}
             else p == AsleepRecv && s.q.msgs == [] && s.threads[i] in {Idle, WokenRecv}
    ensures Covered(t)
  {
    forall k: nat | k < |t.threads| && k != i && Asleep(t.threads[k])
      ensures t.threads[k] == AsleepRecv ==> t.q.msgs == []
      ensures t.threads[k] == AsleepSend ==> |t.q.msgs| >= t.q.maxmsg
    {
      assert s.threads[k] == t.threads[k];
      assert t.threads[i] != Idle;
      if p == AsleepSend {
        assert WokenRecv !in s.threads;
      } else {
        assert WokenSend !in s.threads;
      }
    }
  }

  lemma {:induction false} SendCovers(s: System, i: nat, m: QueueSpec.Message, e: QueueSpec.Sending, w: nat, x: nat, y: nat)
    requires Covered(s) && Pair(s, x, y) && 1 <= s.q.maxmsg && |s.q.msgs| <= s.q.maxmsg <= 2
    requires i < |s.threads| == |s.mail| && (s.threads[i] == Idle || s.threads[i] == WokenSend)
    requires Chooses(s.threads, w) && Sends(s.q, m, e) && (e.outcome.Blocks? ==> i == x || i == y)
    ensures Covered(AfterSend(s, i, m, e, w))
  {
    if e.outcome.Done? {
      SendDoneCovers(s, i, m, e, w, x, y);
    } else if e.outcome.Blocks? {
      BlockCovers(s, AfterSend(s, i, m, e, w), i, x, y, AsleepSend);
    }
  }

  lemma {:induction false} ReceiveCovers(s: System, i: nat, e: QueueSpec.Receiving, w: nat, x: nat, y: nat)
    requires Covered(s) && Pair(s, x, y) && 1 <= s.q.maxmsg && |s.q.msgs| <= s.q.maxmsg <= 2
    requires i < |s.threads| == |s.mail| && (s.threads[i] == Idle || s.threads[i] == WokenRecv)
    requires Chooses(s.threads, w) && Receives(s.q, s.threads[i] == WokenRecv, e)
    requires e.outcome.Blocks? ==> i == x || i == y
    ensures Covered(AfterReceive(s, i, e, w))
  {
    if e.outcome.Done? {
      ReceiveDoneCovers(s, i, e, w, x, y);
    } else if e.outcome.Blocks? {
      BlockCovers(s, AfterReceive(s, i, e, w), i, x, y, AsleepRecv);
    }
  }

  lemma {:induction false} StepCovers(s: System, a: Action, x: nat, y: nat)
    requires Covered(s) && Pair(s, x, y) && 1 <= s.q.maxmsg && |s.q.msgs| <= s.q.maxmsg <= 2
    requires Ready(s, a) && MayCall(a, {x, y})
    ensures Covered(Step(s, a))
  {
    match a
    case MqSend(i, m, nonblock, w) =>
      SendSends(s.q, nonblock, m);
      SendCovers(s, i, m, QueueSpec.Send(s.q, nonblock, m), w, x, y);
    case ResumeSend(i, w) =>
      SendSends(s.q, false, s.mail[i]);
      SendCovers(s, i, s.mail[i], QueueSpec.ResumeSend(s.q, s.mail[i]), w, x, y);
    case MqReceive(i, nonblock, maxlen, w) =>
      ReceiveReceives(s.q, nonblock, maxlen);
      ReceiveCovers(s, i, QueueSpec.Receive(s.q, nonblock, maxlen), w, x, y);
    case ResumeReceive(i, w) =>
      ReceiveReceives(s.q, false, 0);
      ReceiveCovers(s, i, QueueSpec.ResumeReceive(s.q), w, x, y);
    case MqNotify(pid, request, alive) =>
    case Spurious(i) =>
      SpuriousCovers(s, i);
  }

  lemma {:induction false} SpuriousCovers(s: System, i: nat)
    requires Covered(s) && Ready(s, Spurious(i))
    ensures Covered(Step(s, Spurious(i)))
  {
    var t := Step(s, Spurious(i));
    forall p | p in {WokenRecv, WokenSend} && p in s.threads
      ensures p in t.threads
    {
      StaysWoken(s, t, i, p);
    }
  }

  lemma {:induction false} RunCovers(s: System, trace: seq<Action>, t: System, x: nat, y: nat)
    requires Inv(s) && Covered(s) && WaitersIn(s, {x, y}) && s.q.maxmsg <= 2
    requires Run(s, trace, t) && MayCallAll(trace, {x, y})
    ensures Covered(t)
    decreases |trace|
  {
    if trace != [] {
      StepKeepsInv(s, trace[0]);
      StepKeepsWaiters(s, trace[0], {x, y});
      StepCovers(s, trace[0], x, y);
      StepQueue(s, trace[0]);
      RunCovers(Step(s, trace[0]), trace[1..], t, x, y);
    }
  }

  // ---------------------------------------------------------------- lost wake-ups

  /** Threads i and j were asleep in mq_receive when somebody sent k messages. */
  ghost predicate TwoReceivers(c: Config, t: System, i: nat, j: nat, k: int) {
    && Reaches(c, t) && i < c.n && j < c.n && |t.mail| == c.n
    && t.threads == seq(c.n, _ => Idle)[i := WokenRecv][j := AsleepRecv]
    && t.q.maxmsg == c.maxmsg && t.q.msgsize == c.msgsize && |t.q.msgs| == k
  }

  lemma {:induction false} ReachTwoAsleep(c: Config, i: nat, j: nat) returns (t: System)
    requires Proper(c) && i in c.ws && j in c.ws && i != j
    ensures Reaches(c, t) && |t.mail| == c.n
    ensures t.threads == seq(c.n, _ => Idle)[i := AsleepRecv][j := AsleepRecv]
    ensures t.q == QueueSpec.Queue(c.maxmsg, c.msgsize, [], 2, None)
  {
    var u := ReachNew(c);
    var a, b := MqReceive(i, false, c.msgsize, 0), MqReceive(j, false, c.msgsize, i);
    ReachNext(c, u, a);
    u := Step(u, a);
    assert u.threads[i] == AsleepRecv;
    ReachNext(c, u, b);
    t := Step(u, b);
  }

  lemma {:induction false} ReachTwoReceivers(c: Config, i: nat, j: nat, h: nat, k: nat) returns (t: System)
    requires Proper(c) && i in c.ws && j in c.ws && h < c.n && i != j && i != h && j != h
    requires 1 <= k <= c.maxmsg
    ensures TwoReceivers(c, t, i, j, k)
  {
    var u;
    if k == 1 {
      u := ReachTwoAsleep(c, i, j);
    } else {
      u := ReachTwoReceivers(c, i, j, h, k - 1);
    }
    var a := MqSend(h, QueueSpec.Message([], 0), true, if k == 1 then i else j);
    assert Asleep(u.threads[a.w]);
    ReachNext(c, u, a);
    QueueSpec.InsertAdds(u.q.msgs, a.m);
    t := Step(u, a);
  }

  /** Two messages, room for more: the woken receiver takes one and wakes nobody. */
  lemma {:induction false} ReceiverLeftBehind(c: Config, i: nat, j: nat, h: nat) returns (t: System)
    requires Proper(c) && i in c.ws && j in c.ws && h < c.n && i != j && i != h && j != h
    requires c.maxmsg >= 3
    ensures Reaches(c, t) && !Covered(t)
  {
    var u := ReachTwoReceivers(c, i, j, h, 2);
    var a := ResumeReceive(i, j);
    assert Asleep(u.threads[j]);
    ReachNext(c, u, a);
    t := Step(u, a);
    assert t.threads[j] == AsleepRecv;
  }

  /** A full queue, a receiver woken, another receiver and a sender asleep. */
  lemma {:induction false} ReachSenderAsleep(c: Config, i: nat, j: nat, h: nat) returns (t: System)
    requires Proper(c) && i in c.ws && j in c.ws && h in c.ws && i != j && i != h && j != h
    ensures Reaches(c, t) && |t.mail| == c.n && t.q.maxmsg == c.maxmsg && |t.q.msgs| == c.maxmsg
    ensures t.threads == seq(c.n, _ => Idle)[i := WokenRecv][j := AsleepRecv][h := AsleepSend]
  {
    var u := ReachTwoReceivers(c, i, j, h, c.maxmsg);
    var a := MqSend(h, QueueSpec.Message([], 0), false, j);
    assert Asleep(u.threads[j]);
    ReachNext(c, u, a);
    t := Step(u, a);
  }

  /** The woken receiver's signal goes to the other receiver. */
  lemma {:induction false} SenderLeftBehind(c: Config, i: nat, j: nat, h: nat) returns (t: System)
    requires Proper(c) && i in c.ws && j in c.ws && h in c.ws && i != j && i != h && j != h
    ensures Reaches(c, t) && !Covered(t)
  {
    var u := ReachSenderAsleep(c, i, j, h);
    var a := ResumeReceive(i, j);
    assert Asleep(u.threads[j]);
    ReachNext(c, u, a);
    t := Step(u, a);
    assert t.threads[h] == AsleepSend;
  }

  /** No run leaves a blocked thread uncovered. */
  ghost predicate AlwaysCovered(c: Config) {
    forall t :: Reaches(c, t) ==> Covered(t)
  }

  /** At most one thread that blocks, or two threads, or two threads that block on a queue of at
      most two messages. */
  predicate FewBlock(c: Config) {
    |c.ws| <= 1 || c.n <= 2 || (|c.ws| == 2 && c.maxmsg <= 2)
  }

  lemma {:induction false} FewBlockCovers(c: Config, t: System)
    requires Proper(c) && FewBlock(c) && Reaches(c, t)
    ensures Covered(t)
  {
    if |c.ws| <= 1 || c.n <= 2 {
      OneBlockerNeverOversleeps(c, t);
    } else {
      var x, y := PickTwo(c.ws);
      OnlyTwo(c.ws, x, y);
      var s, trace :| Init(s, c.n, c.maxmsg, c.msgsize) && Run(s, trace, t) && MayCallAll(trace, c.ws);
      InitInv(s, c.n, c.maxmsg, c.msgsize);
      RunCovers(s, trace, t, x, y);
    }
  }

  lemma {:induction false} ManyBlockUncovers(c: Config) returns (t: System)
    requires Proper(c) && !FewBlock(c)
    ensures Reaches(c, t) && !Covered(t)
  {
    var i, j := PickTwo(c.ws);
    if c.maxmsg >= 3 {
      t := ReceiverLeftBehind(c, i, j, Third(i, j));
    } else {
      var h := PickAnother(c.ws, i, j);
      t := SenderLeftBehind(c, i, j, h);
    }
  }

  /** Signalling only on the two edges, with one condition variable for both sides, never loses
      a wake-up exactly when few threads ever block; those that do not are without limit. */
  lemma {:induction false} CoveredIffFewBlock(c: Config)
    requires Proper(c)
    ensures AlwaysCovered(c) <==> FewBlock(c)
  {
    if FewBlock(c) {
      forall t | Reaches(c, t)
        ensures Covered(t)
      {
        FewBlockCovers(c, t);
      }
    } else {
      var t := ManyBlockUncovers(c);
    }
  }
}
