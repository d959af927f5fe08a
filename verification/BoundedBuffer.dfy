/**
 Many producers and many consumers over a circular buffer guarded by three semaphores:
 pxsem/prodcons4.c, where every departing producer posts a shutdown token, and
 Semaphore/SemMultiprodMulticons.c, where the consumer of the last item posts the only one.
 Every semaphore operation and every test of a counter under the mutex is one step.  The names
 are those of prodcons4.c.
 */
module BoundedBuffer {
  import opened Common

  datatype Scheme = ProducersPost | LastConsumerPosts

  // Where a thread stands; the comment gives the statement it executes next.
  datatype Pc =
    // a producer
    | WaitEmpty      // wait(nempty)
    | WaitMutex      // wait(mutex)
    | Put            // test nput; store an item or leave
    | PutMutex       // post(mutex)
    | PutStored      // post(nstored)
    | PutCount       // *arg += 1
    | EndStored      // prodcons4, leaving: post(nstored), the shutdown token
    | EndEmpty       // prodcons4, leaving: post(nempty)
    | EndMutex       // prodcons4, leaving: post(mutex)
    | QuitMutex      // SemMultiprodMulticons, leaving: post(mutex)
    | QuitEmpty      // SemMultiprodMulticons, leaving: post(nempty)
    | ProducerDone   // returned
    // a consumer
    | AwaitStored    // wait(nstored)
    | AwaitMutex     // wait(mutex)
    | Get            // test nget; check an item or leave
    | GetExtra       // SemMultiprodMulticons, last item fetched: post(nstored), the shutdown token
    | GetMutex       // post(mutex)
    | GetEmpty       // post(nempty)
    | GetCount       // *arg += 1
    | FinStored      // prodcons4, leaving: post(nstored)
    | FinMutex       // prodcons4, leaving: post(mutex)
    | ExitMutex      // SemMultiprodMulticons, leaving: post(mutex)
    | ExitStored     // SemMultiprodMulticons, leaving: post(nstored)
    | ConsumerDone   // returned

  /** A thread and its private item counter. */
  datatype Thread = Thread(pc: Pc, count: nat)

  datatype Config = Config(scheme: Scheme, nitems: int, nbuff: nat, nproducers: nat, nconsumers: nat)

  /** errors counts the mismatches found; the first one ends SemMultiprodMulticons by exit(-1).
      extra, the number of shutdown tokens posted, is history. */
  datatype State = State(
    mutex: nat, nempty: nat, nstored: nat,
    nput: int, nputval: int, nget: int, ngetval: int,
    buff: seq<int>, errors: nat, extra: nat, threads: seq<Thread>)

  ghost predicate Init(c: Config, s: State) {
    && s.mutex == 1 && s.nempty == c.nbuff && s.nstored == 0
    && s.nput == 0 && s.nputval == 0 && s.nget == 0 && s.ngetval == 0
    && |s.buff| == c.nbuff && s.errors == 0 && s.extra == 0
    && s.threads == seq(c.nproducers, _ => Thread(WaitEmpty, 0)) + seq(c.nconsumers, _ => Thread(AwaitStored, 0))
  }

  /** Thread i is neither blocked in a wait nor returned, and the program has not exited. */
  predicate Ready(c: Config, s: State, i: nat) {
    && i < |s.threads| && |s.buff| == c.nbuff > 0
    && (c.scheme == LastConsumerPosts ==> s.errors == 0)
    && match s.threads[i].pc
       case WaitEmpty => s.nempty > 0
       case WaitMutex => s.mutex > 0
       case AwaitStored => s.nstored > 0
       case AwaitMutex => s.mutex > 0
       case ProducerDone => false
       case ConsumerDone => false
       case _ => true
  }

  function Go(s: State, i: nat, pc: Pc): State
    requires i < |s.threads|
  {
    s.(threads := s.threads[i := s.threads[i].(pc := pc)])
  }

  function Tick(s: State, i: nat, pc: Pc): State
    requires i < |s.threads|
  {
    s.(threads := s.threads[i := Thread(pc, s.threads[i].count + 1)])
  }

  predicate Produces(pc: Pc) {
    || pc.WaitEmpty? || pc.WaitMutex? || pc.Put? || pc.PutMutex? || pc.PutStored? || pc.PutCount?
    || Leaving(pc)
  }

  predicate Leaving(pc: Pc) {
    pc.EndStored? || pc.EndEmpty? || pc.EndMutex? || pc.QuitMutex? || pc.QuitEmpty? || pc.ProducerDone?
  }

  predicate Finishing(pc: Pc) {
    pc.FinStored? || pc.FinMutex? || pc.ExitMutex? || pc.ExitStored? || pc.ConsumerDone?
  }

  function StepProducer(c: Config, s: State, i: nat): State
    requires Ready(c, s, i) && Produces(s.threads[i].pc)
  {
    match s.threads[i].pc
    case WaitEmpty => Go(s, i, WaitMutex).(nempty := s.nempty - 1)
    case WaitMutex => Go(s, i, Put).(mutex := s.mutex - 1)
    case Put =>
      if s.nput >= c.nitems then Go(s, i, if c.scheme == ProducersPost then EndStored else QuitMutex)
      else Go(s, i, PutMutex).(
        buff := s.buff[s.nput % c.nbuff := s.nputval], nput := s.nput + 1, nputval := s.nputval + 1)
    case PutMutex => Go(s, i, PutStored).(mutex := s.mutex + 1)
    case PutStored => Go(s, i, PutCount).(nstored := s.nstored + 1)
    case PutCount => Tick(s, i, WaitEmpty)
    case EndStored => Go(s, i, EndEmpty).(nstored := s.nstored + 1, extra := s.extra + 1)
    case EndEmpty => Go(s, i, EndMutex).(nempty := s.nempty + 1)
    case EndMutex => Go(s, i, ProducerDone).(mutex := s.mutex + 1)
    case QuitMutex => Go(s, i, QuitEmpty).(mutex := s.mutex + 1)
    case QuitEmpty => Go(s, i, ProducerDone).(nempty := s.nempty + 1)
  }

  /** Check and fetch the item at nget. */
  function Fetch(c: Config, s: State, i: nat): State
    requires Ready(c, s, i)
  {
    if s.buff[s.nget % c.nbuff] != s.ngetval && c.scheme == LastConsumerPosts then s.(errors := s.errors + 1)
    else
      Go(s, i, if c.scheme == LastConsumerPosts && s.nget + 1 >= c.nitems then GetExtra else GetMutex).(
        errors := if s.buff[s.nget % c.nbuff] != s.ngetval then s.errors + 1 else s.errors,
        nget := s.nget + 1, ngetval := s.ngetval + 1)
  }

  function StepConsumer(c: Config, s: State, i: nat): State
    requires Ready(c, s, i) && !Produces(s.threads[i].pc)
  {
    match s.threads[i].pc
    case AwaitStored => Go(s, i, AwaitMutex).(nstored := s.nstored - 1)
    case AwaitMutex => Go(s, i, Get).(mutex := s.mutex - 1)
    case Get =>
      if s.nget >= c.nitems then Go(s, i, if c.scheme == ProducersPost then FinStored else ExitMutex)
      else Fetch(c, s, i)
    case GetExtra => Go(s, i, GetMutex).(nstored := s.nstored + 1, extra := s.extra + 1)
    case GetMutex => Go(s, i, GetEmpty).(mutex := s.mutex + 1)
    case GetEmpty => Go(s, i, GetCount).(nempty := s.nempty + 1)
    case GetCount => Tick(s, i, AwaitStored)
    case FinStored => Go(s, i, FinMutex).(nstored := s.nstored + 1)
    case FinMutex => Go(s, i, ConsumerDone).(mutex := s.mutex + 1)
    case ExitMutex => Go(s, i, ExitStored).(mutex := s.mutex + 1)
    case ExitStored => Go(s, i, ConsumerDone).(nstored := s.nstored + 1)
  }

  /** The effect of the next statement of thread i. */
  function Step(c: Config, s: State, i: nat): State
    requires Ready(c, s, i)
  {
    if Produces(s.threads[i].pc) then StepProducer(c, s, i) else StepConsumer(c, s, i)
  }

  /** Scheduling the threads in the order of trace leads from s to t. */
  ghost predicate Run(c: Config, s: State, trace: seq<nat>, t: State)
    decreases |trace|
  {
    if trace == [] then s == t
    else Ready(c, s, trace[0]) && Run(c, Step(c, s, trace[0]), trace[1..], t)
  }

  // ---------------------------------------------------------------- weights

  /** Threads between wait(mutex) and post(mutex). */
  function InMutex(t: Thread): int {
    if t.pc.Put? || t.pc.PutMutex? || t.pc.EndStored? || t.pc.EndEmpty? || t.pc.EndMutex? || t.pc.QuitMutex?
       || t.pc.Get? || t.pc.GetExtra? || t.pc.GetMutex? || t.pc.FinStored? || t.pc.FinMutex? || t.pc.ExitMutex?
    then 1 else 0
  }

  /** Slots taken from nempty and neither full nor given back. */
  function HoldsSlot(t: Thread): int {
    if t.pc.WaitMutex? || t.pc.Put? || t.pc.EndStored? || t.pc.EndEmpty? || t.pc.QuitMutex? || t.pc.QuitEmpty?
       || t.pc.GetExtra? || t.pc.GetMutex? || t.pc.GetEmpty?
    then 1 else 0
  }

  /** Stored tokens held by consumers or owed by producers. */
  function HoldsToken(t: Thread): int {
    if t.pc.AwaitMutex? || t.pc.Get? || t.pc.FinStored? || t.pc.ExitMutex? || t.pc.ExitStored?
       || t.pc.PutMutex? || t.pc.PutStored?
    then 1 else 0
  }

  /** prodcons4: departing producers that have posted their shutdown token. */
  function HasPosted(t: Thread): int {
    if t.pc.EndEmpty? || t.pc.EndMutex? || t.pc.ProducerDone? then 1 else 0
  }

  /** SemMultiprodMulticons: the consumer of the last item, before it posts the shutdown token. */
  function OwesExtra(t: Thread): int {
    if t.pc.GetExtra? then 1 else 0
  }

  /** Items a producer has stored, whether or not it has counted the last one yet. */
  function Made(t: Thread): int {
    if !Produces(t.pc) then 0
    else if t.pc.PutMutex? || t.pc.PutStored? || t.pc.PutCount? then t.count + 1
    else t.count
  }

  function Used(t: Thread): int {
    if Produces(t.pc) then 0
    else if t.pc.GetExtra? || t.pc.GetMutex? || t.pc.GetEmpty? || t.pc.GetCount? then t.count + 1
    else t.count
  }

  /** Statements a thread can still execute without another item being stored or fetched. */
  function StepsLeft(t: Thread): int {
    match t.pc
    case PutMutex => 9 case PutStored => 8 case PutCount => 7
    case WaitEmpty => 6 case WaitMutex => 5 case Put => 4 case EndStored => 3 case EndEmpty => 2 case EndMutex => 1
    case QuitMutex => 2 case QuitEmpty => 1
    case ProducerDone => 0
    case GetExtra => 9 case GetMutex => 8 case GetEmpty => 7 case GetCount => 6
    case AwaitStored => 5 case AwaitMutex => 4 case Get => 3 case FinStored => 2 case FinMutex => 1
    case ExitMutex => 2 case ExitStored => 1
    case ConsumerDone => 0
  }

  // ---------------------------------------------------------------- invariant

  ghost predicate MutexKept(s: State) {
    s.mutex + Total(InMutex, s.threads) == 1
  }

  ghost predicate SlotsKept(c: Config, s: State) {
    s.nempty + Total(HoldsSlot, s.threads) + (s.nput - s.nget) == c.nbuff
  }

  ghost predicate TokensKept(s: State) {
    s.nstored + Total(HoldsToken, s.threads) == s.nput - s.nget + s.extra
  }

  /** One if the last of at least one items has been fetched. */
  function Due(c: Config, nget: int): int {
    if 1 <= c.nitems <= nget then 1 else 0
  }

  /** The shutdown tokens posted are one for every departing producer, or else the one that falls
      due, made or about to be made, when the last item has been fetched. */
  ghost predicate ExtraKept(c: Config, s: State) {
    match c.scheme
    case ProducersPost => s.extra == Total(HasPosted, s.threads)
    case LastConsumerPosts => s.extra + Total(OwesExtra, s.threads) == Due(c, s.nget)
  }

  ghost predicate Counted(s: State) {
    Total(Made, s.threads) == s.nput && Total(Used, s.threads) == s.nget
  }

  ghost predicate Ordered(c: Config, s: State) {
    && 0 <= s.nget <= s.nput <= Max(c.nitems, 0)
    && s.nput <= s.nget + c.nbuff
    && (forall i :: 0 <= i < |s.threads| && Leaving(s.threads[i].pc) ==> s.nput >= c.nitems)
    && (forall i :: 0 <= i < |s.threads| && Finishing(s.threads[i].pc) ==> s.nget >= c.nitems)
  }

  /** The live part of the circular buffer holds the item numbers nget, ..., nput - 1. */
  ghost predicate Holds(c: Config, s: State)
    requires |s.buff| == c.nbuff > 0
  {
    && s.nputval == s.nput && s.ngetval == s.nget && s.errors == 0
    && forall k :: 0 <= s.nget <= k < s.nput ==> s.buff[k % c.nbuff] == k
  }

  /** Threads stay in their program. */
  predicate Belongs(scheme: Scheme, pc: Pc) {
    match scheme
    case ProducersPost => !pc.QuitMutex? && !pc.QuitEmpty? && !pc.GetExtra? && !pc.ExitMutex? && !pc.ExitStored?
    case LastConsumerPosts => !pc.EndStored? && !pc.EndEmpty? && !pc.EndMutex? && !pc.FinStored? && !pc.FinMutex?
  }

  ghost predicate Sized(c: Config, s: State) {
    && |s.buff| == c.nbuff > 0
    && |s.threads| == c.nproducers + c.nconsumers
    && (forall i :: 0 <= i < |s.threads| ==> (Produces(s.threads[i].pc) <==> i < c.nproducers))
    && (forall i :: 0 <= i < |s.threads| ==> Belongs(c.scheme, s.threads[i].pc))
  }

  ghost predicate Kept(c: Config, s: State) {
    MutexKept(s) && SlotsKept(c, s) && TokensKept(s) && ExtraKept(c, s) && Counted(s)
  }

  ghost predicate Inv(c: Config, s: State) {
    Sized(c, s) && Kept(c, s) && Ordered(c, s) && Holds(c, s)
  }

  /** Statements left to execute: every step lowers it, so it bounds every run. */
  ghost function Work(c: Config, s: State): int {
    6 * (Max(c.nitems, 0) - s.nput) + 7 * (Max(c.nitems, 0) - s.nget) + Total(StepsLeft, s.threads)
  }

  // ---------------------------------------------------------------- one step

  /** What thread i takes from the shared counters or gives them, from s to t, it gains or loses. */
  ghost predicate Balanced(s: State, t: State, i: nat)
    requires i < |s.threads| == |t.threads|
  {
    var p, q := s.threads[i], t.threads[i];
    && t.threads == s.threads[i := q]
    && t.mutex + InMutex(q) == s.mutex + InMutex(p)
    && t.nempty + HoldsSlot(q) + t.nput - t.nget == s.nempty + HoldsSlot(p) + s.nput - s.nget
    && t.nstored + HoldsToken(q) - t.nput + t.nget - t.extra == s.nstored + HoldsToken(p) - s.nput + s.nget - s.extra
    && Made(q) - t.nput == Made(p) - s.nput
    && Used(q) - t.nget == Used(p) - s.nget
  }

  /** The same for the shutdown tokens, and the work done. */
  ghost predicate Advances(c: Config, s: State, t: State, i: nat)
    requires i < |s.threads| == |t.threads|
  {
    var p, q := s.threads[i], t.threads[i];
    && (c.scheme == ProducersPost ==> t.extra - HasPosted(q) == s.extra - HasPosted(p))
    && (c.scheme == LastConsumerPosts ==> t.extra + OwesExtra(q) - Due(c, t.nget) == s.extra + OwesExtra(p) - Due(c, s.nget))
    && (t.errors == s.errors ==> StepsLeft(q) - 6 * t.nput - 7 * t.nget < StepsLeft(p) - 6 * s.nput - 7 * s.nget)
    && (Produces(q.pc) <==> Produces(p.pc))
    && Belongs(c.scheme, q.pc)
  }

  lemma ProducerBalanced(c: Config, s: State, i: nat)
    requires Ready(c, s, i) && Produces(s.threads[i].pc)
    ensures Balanced(s, StepProducer(c, s, i), i)
  {
  }

  lemma ConsumerBalanced(c: Config, s: State, i: nat)
    requires Ready(c, s, i) && !Produces(s.threads[i].pc)
    ensures Balanced(s, StepConsumer(c, s, i), i)
  {
  }

  lemma ProducerAdvances(c: Config, s: State, i: nat)
    requires Ready(c, s, i) && Produces(s.threads[i].pc) && Belongs(c.scheme, s.threads[i].pc)
    ensures Advances(c, s, StepProducer(c, s, i), i)
  {
  }

  lemma ConsumerAdvances(c: Config, s: State, i: nat)
    requires Ready(c, s, i) && !Produces(s.threads[i].pc) && Belongs(c.scheme, s.threads[i].pc) && s.nget >= 0
    ensures Advances(c, s, StepConsumer(c, s, i), i)
  {
  }

  /** Tokens, slots, items and shutdown tokens are conserved by every step. */
  lemma StepKeepsCounts(c: Config, s: State, t: State, i: nat)
    requires Kept(c, s) && i < |s.threads| == |t.threads| && Balanced(s, t, i) && Advances(c, s, t, i)
    ensures Kept(c, t)
    ensures t.errors == s.errors ==> Work(c, t) < Work(c, s)
  {
    TotalUpdate(InMutex, s.threads, i, t.threads[i]);
    TotalUpdate(HoldsSlot, s.threads, i, t.threads[i]);
    TotalUpdate(HoldsToken, s.threads, i, t.threads[i]);
    TotalUpdate(Made, s.threads, i, t.threads[i]);
    TotalUpdate(Used, s.threads, i, t.threads[i]);
    TotalUpdate(HasPosted, s.threads, i, t.threads[i]);
    TotalUpdate(OwesExtra, s.threads, i, t.threads[i]);
    TotalUpdate(StepsLeft, s.threads, i, t.threads[i]);
  }

  /** A producer about to store has a slot to store into. */
  lemma RoomToPut(c: Config, s: State, i: nat)
    requires SlotsKept(c, s) && i < |s.threads| && s.threads[i].pc == Put
    ensures s.nput < s.nget + c.nbuff
  {
    TotalAtLeast(HoldsSlot, s.threads, i);
  }

  /** No shutdown token has been posted while items remain to be stored. */
  lemma NoExtraYet(c: Config, s: State)
    requires ExtraKept(c, s) && Ordered(c, s) && s.nput < c.nitems
    ensures s.extra == 0
  {
    match c.scheme
    case ProducersPost => TotalUniform(HasPosted, s.threads, 0);
    case LastConsumerPosts => TotalAtLeast(OwesExtra, s.threads, 0);
  }

  /** A consumer that finds nget below nitems has an item to fetch, even if it was let in by a
      shutdown token. */
  lemma ItemToGet(c: Config, s: State, i: nat)
    requires TokensKept(s) && ExtraKept(c, s) && Ordered(c, s)
    requires i < |s.threads| && s.threads[i].pc == Get && s.nget < c.nitems
    ensures s.nget < s.nput
  {
    if s.nput < c.nitems {
      NoExtraYet(c, s);
      TotalAtLeast(HoldsToken, s.threads, i);
    }
  }

  lemma PutKeepsBuffer(c: Config, s: State)
    requires |s.buff| == c.nbuff > 0 && Holds(c, s)
    requires 0 <= s.nget <= s.nput < s.nget + c.nbuff
    ensures forall k :: s.nget <= k < s.nput + 1 ==> s.buff[s.nput % c.nbuff := s.nput][k % c.nbuff] == k
  {
    forall k | s.nget <= k < s.nput + 1
      ensures s.buff[s.nput % c.nbuff := s.nput][k % c.nbuff] == k
    {
      if k < s.nput {
        SlotsDiffer(c.nbuff, k, s.nput);
      }
    }
  }

  /** A producer step keeps the order and the buffer. */
  lemma ProducerKeepsItems(c: Config, s: State, i: nat)
    requires Inv(c, s) && Ready(c, s, i) && Produces(s.threads[i].pc)
    ensures |StepProducer(c, s, i).buff| == c.nbuff
    ensures Ordered(c, StepProducer(c, s, i)) && Holds(c, StepProducer(c, s, i))
  {
    if s.threads[i].pc == Put {
      RoomToPut(c, s, i);
      PutKeepsBuffer(c, s);
    }
  }

  /** A consumer step keeps the order and finds the item it expects. */
  lemma ConsumerKeepsItems(c: Config, s: State, i: nat)
    requires Inv(c, s) && Ready(c, s, i) && !Produces(s.threads[i].pc)
    ensures |StepConsumer(c, s, i).buff| == c.nbuff
    ensures Ordered(c, StepConsumer(c, s, i)) && Holds(c, StepConsumer(c, s, i))
  {
    if s.threads[i].pc == Get && s.nget < c.nitems {
      ItemToGet(c, s, i);
      assert s.buff[s.nget % c.nbuff] == s.nget;
    }
  }

  lemma StepKeepsInv(c: Config, s: State, i: nat)
    requires Inv(c, s) && Ready(c, s, i)
    ensures Inv(c, Step(c, s, i)) && Work(c, Step(c, s, i)) < Work(c, s)
  {
    if Produces(s.threads[i].pc) {
      ProducerBalanced(c, s, i);
      ProducerAdvances(c, s, i);
      ProducerKeepsItems(c, s, i);
    } else {
      ConsumerBalanced(c, s, i);
      ConsumerAdvances(c, s, i);
      ConsumerKeepsItems(c, s, i);
    }
    StepKeepsCounts(c, s, Step(c, s, i), i);
  }

  // ---------------------------------------------------------------- every run

  lemma InitInv(c: Config, s: State)
    requires Init(c, s) && c.nbuff > 0
    ensures Inv(c, s)
    ensures Work(c, s) == 13 * Max(c.nitems, 0) + 6 * c.nproducers + 5 * c.nconsumers
  {
    InitTotal(c, s, InMutex, 0, 0);
    InitTotal(c, s, HoldsSlot, 0, 0);
    InitTotal(c, s, HoldsToken, 0, 0);
    InitTotal(c, s, Made, 0, 0);
    InitTotal(c, s, Used, 0, 0);
    InitTotal(c, s, HasPosted, 0, 0);
    InitTotal(c, s, OwesExtra, 0, 0);
    InitTotal(c, s, StepsLeft, 6, 5);
  }

  lemma InitTotal(c: Config, s: State, w: Thread -> int, p: int, q: int)
    requires Init(c, s) && w(Thread(WaitEmpty, 0)) == p && w(Thread(AwaitStored, 0)) == q
    ensures Total(w, s.threads) == p * c.nproducers + q * c.nconsumers
  {
    var ps := seq(c.nproducers, _ => Thread(WaitEmpty, 0));
    var cs := seq(c.nconsumers, _ => Thread(AwaitStored, 0));
    TotalUniform(w, ps, p);
    TotalUniform(w, cs, q);
    TotalConcat(w, ps, cs);
  }

  lemma {:induction false} RunKeepsInv(c: Config, s: State, trace: seq<nat>, t: State)
    requires Inv(c, s) && Run(c, s, trace, t)
    ensures Inv(c, t) && Work(c, t) + |trace| <= Work(c, s)
    decreases |trace|
  {
    if trace != [] {
      StepKeepsInv(c, s, trace[0]);
      RunKeepsInv(c, Step(c, s, trace[0]), trace[1..], t);
    }
  }

  /** Every interleaving keeps the order, loses no token and finds no mismatch: neither the error
      print nor exit(-1) is reachable.  The last consumer's token is posted at most once, and only
      after the last item has been fetched. */
  lemma EveryRunIsSafe(c: Config, s: State, trace: seq<nat>, t: State)
    requires Init(c, s) && c.nbuff > 0 && Run(c, s, trace, t)
    ensures |t.buff| == c.nbuff
    ensures t.nget <= t.nput <= t.nget + c.nbuff
    ensures t.errors == 0 && Holds(c, t)
    ensures MutexKept(t) && SlotsKept(c, t) && TokensKept(t) && ExtraKept(c, t)
    ensures c.scheme == LastConsumerPosts ==> t.extra <= 1 && (t.extra == 1 ==> 1 <= c.nitems <= t.nget)
  {
    InitInv(c, s);
    RunKeepsInv(c, s, trace, t);
    TotalAtLeast(OwesExtra, t.threads, 0);
  }

  // ---------------------------------------------------------------- the end of a run

  ghost predicate AllReturned(s: State) {
    forall i :: 0 <= i < |s.threads| ==> s.threads[i].pc == ProducerDone || s.threads[i].pc == ConsumerDone
  }

  /** Nothing can move. */
  ghost predicate Stuck(c: Config, s: State) {
    forall i: nat :: i < |s.threads| ==> !Ready(c, s, i)
  }

  predicate Parked(pc: Pc) {
    pc.WaitEmpty? || pc.AwaitStored? || pc.ProducerDone? || pc.ConsumerDone?
  }

  /** With nobody able to move the mutex is free and every thread is outside it. */
  lemma StuckOutside(c: Config, s: State)
    requires Inv(c, s) && Stuck(c, s)
    ensures forall i :: 0 <= i < |s.threads| ==> Parked(s.threads[i].pc)
    ensures s.nempty + (s.nput - s.nget) == c.nbuff
    ensures s.nstored == s.nput - s.nget + s.extra
    ensures c.scheme == LastConsumerPosts ==> s.extra == Due(c, s.nget)
  {
    forall i: nat | i < |s.threads| && !s.threads[i].pc.WaitMutex? && !s.threads[i].pc.AwaitMutex?
      ensures Parked(s.threads[i].pc)
    {
      assert !Ready(c, s, i);
    }
    TotalUniform(InMutex, s.threads, 0);
    forall i: nat | i < |s.threads|
      ensures !s.threads[i].pc.WaitMutex? && !s.threads[i].pc.AwaitMutex?
    {
      assert !Ready(c, s, i);
    }
    TotalUniform(HoldsSlot, s.threads, 0);
    TotalUniform(HoldsToken, s.threads, 0);
    TotalUniform(OwesExtra, s.threads, 0);
  }

  /** The programs that can come to an end: any with the first scheme, and with the second those
      that have an item to move. */
  predicate CanEnd(c: Config) {
    c.scheme == ProducersPost || c.nitems >= 1
  }

  /** When nobody can move there is a token left, so no consumer is waiting for one. */
  lemma StuckHasToken(c: Config, s: State)
    requires Inv(c, s) && Stuck(c, s) && c.nproducers >= 1 && CanEnd(c)
    ensures s.nstored > 0
  {
    StuckOutside(c, s);
    assert Produces(s.threads[0].pc) && !Ready(c, s, 0);
    if s.threads[0].pc == ProducerDone {
      assert Leaving(s.threads[0].pc);
      TotalAtLeast(HasPosted, s.threads, 0);
    }
  }

  /** A state in which nothing can move is the end of the program. */
  lemma StuckIsDone(c: Config, s: State)
    requires Inv(c, s) && Stuck(c, s) && c.nproducers >= 1 && c.nconsumers >= 1 && CanEnd(c)
    ensures AllReturned(s)
    ensures s.nput == Max(c.nitems, 0) && s.nget == Max(c.nitems, 0)
  {
    StuckOutside(c, s);
    StuckHasToken(c, s);
    forall j: nat | c.nproducers <= j < |s.threads|
      ensures s.threads[j].pc == ConsumerDone
    {
      assert !Ready(c, s, j);
    }
    assert Finishing(s.threads[c.nproducers].pc);
    forall j: nat | j < c.nproducers
      ensures s.threads[j].pc == ProducerDone
    {
      assert !Ready(c, s, j);
    }
  }

  function Count(t: Thread): int {
    t.count
  }

  /** When all threads have returned, the private counters are the whole story. */
  lemma ReturnedCounts(c: Config, s: State)
    requires Sized(c, s) && Counted(s) && AllReturned(s)
    ensures Total(Count, s.threads[..c.nproducers]) == s.nput
    ensures Total(Count, s.threads[c.nproducers..]) == s.nget
  {
    var ps, cs := s.threads[..c.nproducers], s.threads[c.nproducers..];
    assert s.threads == ps + cs;
    TotalConcat(Made, ps, cs);
    TotalAgree(Made, Count, ps);
    TotalUniform(Made, cs, 0);
    TotalConcat(Used, ps, cs);
    TotalAgree(Used, Count, cs);
    TotalUniform(Used, ps, 0);
  }

  /** Every run is finite, with an explicit bound; a run that cannot be extended has every thread
      returned, both sums of per-thread counts equal to nitems, and the last consumer's token
      posted exactly once. */
  lemma EveryRunFinishes(c: Config, s: State, trace: seq<nat>, t: State)
    requires Init(c, s) && c.nbuff > 0 && c.nproducers >= 1 && c.nconsumers >= 1
    requires Run(c, s, trace, t)
    ensures |trace| <= 13 * Max(c.nitems, 0) + 6 * c.nproducers + 5 * c.nconsumers
    ensures |t.threads| == c.nproducers + c.nconsumers
    ensures Stuck(c, t) && CanEnd(c) ==>
              && AllReturned(t)
              && Total(Count, t.threads[..c.nproducers]) == Max(c.nitems, 0)
              && Total(Count, t.threads[c.nproducers..]) == Max(c.nitems, 0)
              && (c.scheme == LastConsumerPosts ==> t.extra == 1)
  {
    InitInv(c, s);
    RunKeepsInv(c, s, trace, t);
    TotalAtLeast(StepsLeft, t.threads, 0);
    if Stuck(c, t) && CanEnd(c) {
      StuckIsDone(c, t);
      StuckOutside(c, t);
      ReturnedCounts(c, t);
    }
  }

  // ---------------------------------------------------------------- nothing to produce

  ghost predicate NoConsumerStarted(s: State) {
    forall i :: 0 <= i < |s.threads| ==> s.threads[i].pc.AwaitStored? || Produces(s.threads[i].pc)
  }

  /** With nothing to move the last consumer's token is never posted, so no consumer ever gets
      past its first wait. */
  lemma {:induction false} NoItemsRun(c: Config, s: State, trace: seq<nat>, t: State)
    requires Inv(c, s) && !CanEnd(c) && NoConsumerStarted(s) && Run(c, s, trace, t)
    ensures NoConsumerStarted(t)
    decreases |trace|
  {
    if trace != [] {
      var i := trace[0];
      TotalAtLeast(HoldsToken, s.threads, 0);
      TotalAtLeast(OwesExtra, s.threads, 0);
      StepKeepsInv(c, s, i);
      assert Produces(s.threads[i].pc) && Produces(Step(c, s, i).threads[i].pc);
      NoItemsRun(c, Step(c, s, i), trace[1..], t);
    }
  }

  /** A run that cannot be extended is a completed program, except that with the second scheme
      and nothing to move it is a deadlock of all the consumers. */
  lemma FinishesIffCanEnd(c: Config, s: State, trace: seq<nat>, t: State)
    requires Init(c, s) && c.nbuff > 0 && c.nproducers >= 1 && c.nconsumers >= 1
    requires Run(c, s, trace, t) && Stuck(c, t)
    ensures AllReturned(t) <==> CanEnd(c)
  {
    InitInv(c, s);
    RunKeepsInv(c, s, trace, t);
    if CanEnd(c) {
      StuckIsDone(c, t);
    } else {
      NoItemsRun(c, s, trace, t);
      assert !Produces(t.threads[c.nproducers].pc);
    }
  }
}
