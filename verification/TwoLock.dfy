/**
 Many producers and one consumer with one mutex for "put" and another for "ready":
 mutex/prodcons6.c (PerItem: signal only when the ready count is zero, take one item at a time)
 and MutexAndCond.c (Batch: signal always, drain all ready items while holding the mutex).
 A section under one mutex is one step, except the draining loop, which is one step per item.
 */
module TwoLock {
  import opened Common

  datatype Program = PerItem | Batch

  datatype ProducerPc =
    | Put        // the section under put.mutex
    | Announce   // the section under nready.mutex
    | Add        // *arg += 1
    | Quit       // returned

  datatype Producer = Producer(pc: ProducerPc, count: nat)

  datatype ConsumerPc =
    | Top        // loop test, then lock nready.mutex and test the count
    | Asleep     // in pthread_cond_wait, not woken
    | Woken      // woken, to retest the count
    | Check      // PerItem: compare buff[i], next i
    | Drain      // Batch: in the draining loop, holding nready.mutex
    | Done       // returned

  datatype Config = Config(program: Program, nitems: int, capacity: nat, nproducers: nat)

  /** errors counts the mismatches (or reads outside the buffer) that the consumer reports.
      signals, the pthread_cond_signal calls made, and drains, how often the consumer has brought
      the ready count down to zero, are history. */
  datatype State = State(
    buff: seq<int>, nput: int, nval: int, nready: int,
    producers: seq<Producer>, consumer: ConsumerPc, i: int, errors: nat, signals: nat, drains: nat)

  datatype Action = Produce(k: nat) | Consume | Spurious

  ghost predicate Init(c: Config, s: State) {
    && |s.buff| == c.capacity && c.nitems <= c.capacity
    && s.nput == 0 && s.nval == 0 && s.nready == 0 && s.i == 0 && s.errors == 0 && s.signals == 0 && s.drains == 0
    && s.producers == seq(c.nproducers, _ => Producer(Put, 0))
    && s.consumer == Top
  }

  predicate Ready(c: Config, s: State, a: Action) {
    match a
    case Produce(k) =>
      && k < |s.producers|
      && s.producers[k].pc != Quit
      && (s.producers[k].pc == Announce ==> s.consumer != Drain)
      && (s.producers[k].pc == Put && s.nput < c.nitems ==> 0 <= s.nput < |s.buff|)
    case Consume => s.consumer != Asleep && s.consumer != Done
    case Spurious => s.consumer == Asleep
  }

  function Go(s: State, k: nat, pc: ProducerPc): State
    requires k < |s.producers|
  {
    s.(producers := s.producers[k := s.producers[k].(pc := pc)])
  }

  function StepProducer(c: Config, s: State, k: nat): State
    requires Ready(c, s, Produce(k))
  {
    match s.producers[k].pc
    case Put =>
      if s.nput >= c.nitems then Go(s, k, Quit)
      else Go(s, k, Announce).(buff := s.buff[s.nput := s.nval], nput := s.nput + 1, nval := s.nval + 1)
    case Announce =>
      var signal := c.program == Batch || s.nready == 0;
      Go(s, k, Add).(
        nready := s.nready + 1, signals := s.signals + One(signal),
        consumer := if signal && s.consumer == Asleep then Woken else s.consumer)
    case Add => s.(producers := s.producers[k := Producer(Put, s.producers[k].count + 1)])
  }

  /** The consumer takes one item off the ready count. */
  function TakeOne(s: State): State {
    s.(nready := s.nready - 1, drains := s.drains + One(s.nready == 1))
  }

  /** The consumer holds nready.mutex and tests the count. */
  function TestReady(c: Config, s: State): State {
    if s.nready == 0 then s.(consumer := Asleep)
    else if c.program == PerItem then TakeOne(s).(consumer := Check)
    else s.(consumer := Drain)
  }

  function Compare(s: State): State {
    s.(errors := if 0 <= s.i < |s.buff| && s.buff[s.i] == s.i then s.errors else s.errors + 1, i := s.i + 1)
  }

  function StepConsumer(c: Config, s: State): State
    requires Ready(c, s, Consume)
  {
    match s.consumer
    case Top => if s.i < c.nitems then TestReady(c, s) else s.(consumer := Done)
    case Woken => TestReady(c, s)
    case Check => Compare(s).(consumer := Top)
    case Drain => if s.nready > 0 then TakeOne(Compare(s)) else s.(consumer := Top)
  }

  function Step(c: Config, s: State, a: Action): State
    requires Ready(c, s, a)
  {
    match a
    case Produce(k) => StepProducer(c, s, k)
    case Consume => StepConsumer(c, s)
    case Spurious => s.(consumer := Woken)
  }

  ghost predicate Run(c: Config, s: State, trace: seq<Action>, t: State)
    decreases |trace|
  {
    if trace == [] then s == t
    else Ready(c, s, trace[0]) && Run(c, Step(c, s, trace[0]), trace[1..], t)
  }

  // ---------------------------------------------------------------- invariant

  /** Producers between their two critical sections. */
  function Between(p: Producer): int {
    if p.pc == Announce then 1 else 0
  }

  function Made(p: Producer): int {
    p.count + (if p.pc == Announce || p.pc == Add then 1 else 0)
  }

  function StepsLeft(p: Producer): int {
    match p.pc case Announce => 4 case Add => 2 case Put => 1 case Quit => 0
  }

  function Took(s: State): int {
    if s.consumer == Check then 1 else 0
  }

  /** Every stored item is consumed, taken, ready or about to be announced. */
  ghost predicate ItemsKept(s: State) {
    s.i + Took(s) + s.nready + Total(Between, s.producers) == s.nput
  }

  /** prodcons6 signals once for every time the count leaves zero, MutexAndCond once per item. */
  ghost predicate SignalsKept(c: Config, s: State) {
    match c.program
    case PerItem => s.signals == s.drains + One(s.nready > 0)
    case Batch => s.signals + Total(Between, s.producers) == s.nput
  }

  ghost predicate Filled(s: State) {
    && s.nval == s.nput && 0 <= s.nput <= |s.buff|
    && forall k :: 0 <= k < s.nput ==> s.buff[k] == k
  }

  ghost predicate InOrder(c: Config, s: State) {
    && 0 <= s.i && 0 <= s.nready && s.errors == 0
    && s.nput <= Max(c.nitems, 0)
    && (s.consumer == Asleep ==> s.nready == 0)
    && (s.consumer == Asleep || s.consumer == Woken ==> s.i < c.nitems)
    && (s.consumer == Done ==> s.i >= c.nitems)
    && (s.consumer == Drain ==> c.program == Batch) && (s.consumer == Check ==> c.program == PerItem)
    && (forall k :: 0 <= k < |s.producers| && s.producers[k].pc == Quit ==> s.nput >= c.nitems)
  }

  ghost predicate Inv(c: Config, s: State) {
    && |s.producers| == c.nproducers && |s.buff| == c.capacity && c.nitems <= c.capacity
    && ItemsKept(s) && SignalsKept(c, s) && Filled(s) && InOrder(c, s)
    && Total(Made, s.producers) == s.nput
  }

  function ConsumerStepsLeft(s: State): int {
    match s.consumer
    case Top => 2 case Woken => 2 case Asleep => 1 case Check => 1 case Done => 0
    case Drain => if s.nready > 0 then 1 else 3
  }

  ghost function Work(c: Config, s: State): int {
    4 * (Max(c.nitems, 0) - s.nput) + Total(StepsLeft, s.producers)
    + 3 * (Max(c.nitems, 0) - s.i) + ConsumerStepsLeft(s)
  }

  lemma ProducerKeepsInv(c: Config, s: State, k: nat)
    requires Inv(c, s) && Ready(c, s, Produce(k))
    ensures Inv(c, StepProducer(c, s, k))
  {
    var p := StepProducer(c, s, k).producers[k];
    TotalUpdate(Between, s.producers, k, p);
    TotalUpdate(Made, s.producers, k, p);
  }

  lemma ConsumerKeepsInv(c: Config, s: State)
    requires Inv(c, s) && Ready(c, s, Consume)
    ensures Inv(c, StepConsumer(c, s))
  {
    TotalAtLeast(Between, s.producers, 0);
  }

  lemma StepLowersWork(c: Config, s: State, a: Action)
    requires Inv(c, s) && Ready(c, s, a)
    ensures Work(c, Step(c, s, a)) <= Work(c, s) + (if a == Spurious then 1 else -1)
  {
    if a.Produce? {
      TotalUpdate(StepsLeft, s.producers, a.k, Step(c, s, a).producers[a.k]);
    }
  }

  lemma InitInv(c: Config, s: State)
    requires Init(c, s)
    ensures Inv(c, s)
    ensures Work(c, s) == 7 * Max(c.nitems, 0) + c.nproducers + 2
  {
    TotalUniform(Between, s.producers, 0);
    TotalUniform(Made, s.producers, 0);
    TotalUniform(StepsLeft, s.producers, 1);
  }

  function SpuriousIn(trace: seq<Action>): nat {
    if trace == [] then 0 else (if trace[0] == Spurious then 1 else 0) + SpuriousIn(trace[1..])
  }

  lemma {:induction false} RunKeepsInv(c: Config, s: State, trace: seq<Action>, t: State)
    requires Inv(c, s) && Run(c, s, trace, t)
    ensures Inv(c, t) && Work(c, t) + |trace| <= Work(c, s) + 2 * SpuriousIn(trace)
    decreases |trace|
  {
    if trace != [] {
      match trace[0] {
        case Produce(k) => ProducerKeepsInv(c, s, k);
        case Consume => ConsumerKeepsInv(c, s);
        case Spurious =>
      }
      StepLowersWork(c, s, trace[0]);
      RunKeepsInv(c, Step(c, s, trace[0]), trace[1..], t);
    }
  }

  // ---------------------------------------------------------------- main results

  /** In every reachable state the item the consumer is about to compare is in bounds, right and
      final, no error has been reported, and a sleeping consumer means that nothing is ready.
      prodcons6 compares outside nready.mutex and has signalled once for every time the ready
      count left zero; MutexAndCond compares inside and has signalled once per announced item. */
  lemma EveryRunIsSafe(c: Config, s: State, trace: seq<Action>, t: State)
    requires Init(c, s) && Run(c, s, trace, t)
    ensures ItemsKept(t)
    ensures t.errors == 0
    ensures t.consumer == Check || (t.consumer == Drain && t.nready > 0) ==>
              0 <= t.i < t.nput <= |t.buff| && t.buff[t.i] == t.i
    ensures t.consumer == Asleep ==> t.nready == 0
    ensures SignalsKept(c, t)
    ensures (t.consumer == Check ==> c.program == PerItem) && (t.consumer == Drain ==> c.program == Batch)
  {
    InitInv(c, s);
    RunKeepsInv(c, s, trace, t);
    TotalAtLeast(Between, t.producers, 0);
  }

  /** Nobody can move, spurious wake-ups apart. */
  ghost predicate Stuck(c: Config, s: State) {
    && !Ready(c, s, Consume)
    && forall k: nat :: k < |s.producers| ==> !Ready(c, s, Produce(k))
  }

  function Count(p: Producer): int {
    p.count
  }

  /** Apart from spurious wake-ups every run is finite, and it can stop only with all threads
      returned, every item compared and the producers' counts adding up to nitems. */
  lemma EveryRunFinishes(c: Config, s: State, trace: seq<Action>, t: State)
    requires Init(c, s) && c.nproducers >= 1 && Run(c, s, trace, t)
    ensures |trace| <= 7 * Max(c.nitems, 0) + c.nproducers + 2 + 2 * SpuriousIn(trace)
    ensures Stuck(c, t) ==>
              && t.consumer == Done
              && (forall k :: 0 <= k < |t.producers| ==> t.producers[k].pc == Quit)
              && t.i == Max(c.nitems, 0)
              && Total(Count, t.producers) == Max(c.nitems, 0)
  {
    InitInv(c, s);
    RunKeepsInv(c, s, trace, t);
    TotalAtLeast(StepsLeft, t.producers, 0);
    TotalAtLeast(Between, t.producers, 0);
    if Stuck(c, t) {
      forall k: nat | k < |t.producers|
        ensures t.producers[k].pc == Quit
      {
        assert !Ready(c, t, Produce(k));
      }
      assert t.producers[0].pc == Quit;
      TotalUniform(Between, t.producers, 0);
      TotalAgree(Made, Count, t.producers);
    }
  }
}
