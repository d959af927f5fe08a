/**
 POSIX message queue (my_pxmsg_mmap) as a value: what each mutex-held section of mymq_send,
 mymq_receive and mymq_notify does to the queue, and what the priority order means.
 */
module QueueSpec {
  import opened Common

  datatype Message = Message(body: seq<byte>, prio: nat)

  /** A process registered by mq_notify; signals is sigev_notify == SIGEV_SIGNAL. */
  datatype Registration = Registration(pid: int, signals: bool)

  /** The queue's attributes, its messages in list order, and the rest of the header. */
  datatype Queue = Queue(maxmsg: int, msgsize: int, msgs: seq<Message>, nwait: int, registered: Option<Registration>)

  datatype Errno = EMSGSIZE | EAGAIN | EBUSY | EBADF

  /** How a section ends: with an error return, inside pthread_cond_wait, or with success. */
  datatype Outcome = Failed(errno: Errno) | Blocks | Done

  /** signal: mqh_wait was signalled.  notice: the process that was sent its signal. */
  datatype Sending = Sending(queue: Queue, outcome: Outcome, signal: bool, notice: Option<Registration>)

  datatype Receiving = Receiving(queue: Queue, outcome: Outcome, signal: bool, message: Option<Message>)

  // ---------------------------------------------------------------- priority order

  /** Insert behind every message of the same or a higher priority. */
  function Insert(q: seq<Message>, m: Message): seq<Message> {
    if q == [] || m.prio > q[0].prio then [m] + q else [q[0]] + Insert(q[1..], m)
  }

  ghost predicate Sorted(q: seq<Message>) {
    forall i, j :: 0 <= i < j < |q| ==> q[i].prio >= q[j].prio
  }

  /** The list order of messages that arrived in the order a. */
  function StableSort(a: seq<Message>): seq<Message> {
    if a == [] then [] else Insert(StableSort(a[..|a| - 1]), a[|a| - 1])
  }

  /** a[i] is the oldest of the messages of the highest priority present. */
  ghost predicate OldestOfHighest(a: seq<Message>, i: int) {
    && 0 <= i < |a|
    && (forall j :: 0 <= j < |a| ==> a[j].prio <= a[i].prio)
    && (forall j :: 0 <= j < i ==> a[j].prio < a[i].prio)
  }

  /** The index of the message that must be served next. */
  function Oldest(a: seq<Message>): (i: int)
    requires a != []
    ensures OldestOfHighest(a, i)
  {
    var n := |a| - 1;
    if n == 0 then 0
    else
      var k := Oldest(a[..n]);
      if a[n].prio > a[k].prio then n else k
  }

  function Without(a: seq<Message>, i: int): seq<Message>
    requires 0 <= i < |a|
  {
    a[..i] + a[i + 1..]
  }

  // ---------------------------------------------------------------- the sections

  function Enqueue(q: Queue, m: Message, notice: Option<Registration>): Sending {
    Sending(q.(msgs := Insert(q.msgs, m)), Done, |q.msgs| == 0, notice)
  }

  /** mymq_send from the lock to the unlock or to pthread_cond_wait. */
  function Send(q: Queue, nonblock: bool, m: Message): Sending {
    if |m.body| > q.msgsize then Sending(q, Failed(EMSGSIZE), false, None)
    else if |q.msgs| == 0 then
      if q.registered.Some? && q.nwait == 0 then
        Enqueue(q.(registered := None), m, if q.registered.value.signals then q.registered else None)
      else Enqueue(q, m, None)
    else if |q.msgs| >= q.maxmsg then
      Sending(q, if nonblock then Failed(EAGAIN) else Blocks, false, None)
    else Enqueue(q, m, None)
  }

  /** mymq_send back from pthread_cond_wait. */
  function ResumeSend(q: Queue, m: Message): Sending {
    if |q.msgs| >= q.maxmsg then Sending(q, Blocks, false, None) else Enqueue(q, m, None)
  }

  function Dequeue(q: Queue): Receiving
    requires |q.msgs| > 0
  {
    Receiving(q.(msgs := q.msgs[1..]), Done, |q.msgs| == q.maxmsg, Some(q.msgs[0]))
  }

  /** mymq_receive from the lock to the unlock or to pthread_cond_wait. */
  function Receive(q: Queue, nonblock: bool, maxlen: int): Receiving {
    if maxlen < q.msgsize then Receiving(q, Failed(EMSGSIZE), false, None)
    else if |q.msgs| == 0 then
      if nonblock then Receiving(q, Failed(EAGAIN), false, None)
      else Receiving(q.(nwait := q.nwait + 1), Blocks, false, None)
    else Dequeue(q)
  }

  /** mymq_receive back from pthread_cond_wait. */
  function ResumeReceive(q: Queue): Receiving {
    if |q.msgs| == 0 then Receiving(q, Blocks, false, None)
    else Dequeue(q.(nwait := q.nwait - 1))
  }

  /** mymq_notify; alive: does kill(mqh_pid, 0) find the registered process. */
  function Notify(q: Queue, pid: int, request: Option<bool>, alive: bool): (Queue, Outcome) {
    match request
    case None => (if q.registered.Some? && q.registered.value.pid == pid then q.(registered := None) else q, Done)
    case Some(signals) =>
      if q.registered.Some? && alive then (q, Failed(EBUSY))
      else (q.(registered := Some(Registration(pid, signals))), Done)
  }

  // ---------------------------------------------------------------- what the order means

  lemma {:induction false} InsertAdds(q: seq<Message>, m: Message)
    ensures multiset(Insert(q, m)) == multiset(q) + multiset{m}
    ensures |Insert(q, m)| == |q| + 1
  {
    if q != [] && m.prio <= q[0].prio {
      InsertAdds(q[1..], m);
      assert q == [q[0]] + q[1..];
    }
  }

  lemma {:induction false} InsertKeepsSorted(q: seq<Message>, m: Message)
    requires Sorted(q)
    ensures Sorted(Insert(q, m))
  {
    if q != [] && m.prio <= q[0].prio {
      var r := Insert(q[1..], m);
      InsertKeepsSorted(q[1..], m);
      forall i | 0 <= i < |r| ensures r[i].prio <= q[0].prio {
        InsertAdds(q[1..], m);
        assert r[i] in multiset(q[1..]) + multiset{m};
      }
    }
  }

  /** The list holds a permutation of what arrived, by falling priority. */
  lemma {:induction false} StableSortSorts(a: seq<Message>)
    ensures Sorted(StableSort(a))
    ensures multiset(StableSort(a)) == multiset(a)
    ensures |StableSort(a)| == |a|
  {
    if a != [] {
      StableSortSorts(a[..|a| - 1]);
      InsertKeepsSorted(StableSort(a[..|a| - 1]), a[|a| - 1]);
      InsertAdds(StableSort(a[..|a| - 1]), a[|a| - 1]);
      assert a == a[..|a| - 1] + [a[|a| - 1]];
    }
  }

  lemma {:induction false} StableSortArrival(b: seq<Message>, m: Message)
    ensures StableSort(b + [m]) == Insert(StableSort(b), m)
  {
    assert (b + [m])[..|b|] == b;
  }

  lemma {:induction false} InsertBehind(x: Message, r: seq<Message>, m: Message)
    requires m.prio <= x.prio
    ensures Insert([x] + r, m) == [x] + Insert(r, m)
  {
    assert ([x] + r)[1..] == r;
  }

  lemma {:induction false} WithoutArrival(b: seq<Message>, m: Message, k: int)
    requires 0 <= k < |b|
    ensures Without(b + [m], k) == Without(b, k) + [m]
  {
  }

  /** Serving before or after an arrival of no higher priority gives the same list. */
  lemma {:induction false} TailAfterArrival(b: seq<Message>, m: Message, k: int)
    requires 0 <= k < |b| && m.prio <= b[k].prio
    requires StableSort(b) == [b[k]] + StableSort(Without(b, k))
    ensures StableSort(b + [m]) == [b[k]] + StableSort(Without(b + [m], k))
  {
    WithoutArrival(b, m, k);
    StableSortArrival(b, m);
    StableSortArrival(Without(b, k), m);
    InsertBehind(b[k], StableSort(Without(b, k)), m);
  }

  /** The head of the list is the oldest message of the highest priority, and removing it leaves
      the list of the others. */
  lemma {:induction false} HeadIsOldest(a: seq<Message>)
    requires a != []
    ensures StableSort(a) == [a[Oldest(a)]] + StableSort(Without(a, Oldest(a)))
  {
    var n := |a| - 1;
    var b, m := a[..n], a[n];
    assert a == b + [m];
    StableSortArrival(b, m);
    if n == 0 {
      assert Without(a, 0) == [];
    } else {
      var k := Oldest(b);
      HeadIsOldest(b);
      if m.prio > b[k].prio {
        assert Without(a, n) == b;
      } else {
        TailAfterArrival(b, m, k);
      }
    }
  }

  lemma OldestIsUnique(a: seq<Message>, i: int, j: int)
    requires OldestOfHighest(a, i) && OldestOfHighest(a, j)
    ensures i == j
  {
    assert a[i].prio <= a[j].prio && a[j].prio <= a[i].prio;
  }
}
